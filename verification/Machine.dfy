/** Environments, CPUs and the big kernel lock: every step that a CPU can take, at the grain of
    what other CPUs can observe, and what holds after any run of them.  A CPU that holds the lock
    runs the handlers of kern/trap.c, kern/syscall.c, kern/env.c and kern/sched.c. */
module Machine {
  import opened Errors
  import opened Options
  import opened Paging
  import opened Word32

  const NENV := 1024

  // inc/env.h
  datatype Status = Free | Dying | Runnable | Running | NotRunnable

  datatype Env = Env(id: int, parent: int, status: Status, runs: nat, eax: int,
                     recving: bool, dstva: nat, value: Uint32, from: int, perm: nat)

  /** Where a CPU's control is. */
  datatype Pc =
    | Boot                     // an AP before mp_main, or the BSP before it takes the lock
    | User                     // running the environment `cur`
    | Idle                     // in the hlt loop of sched_halt
    | Spin(entry: Entry)       // in spin_lock
    | Entered(entry: Entry)    // past spin_lock
    | Dispatch                 // in trap_dispatch, on behalf of `cur`
    | Resume                   // back in trap(), the trap dispatched
    | Yield                    // in sched_yield
    | Monitor                  // in the kernel monitor, for ever

  datatype Entry = FromUser | FromHalt | FromBoot

  datatype CpuStatus = Unused | Started | Halted

  datatype Cpu = Cpu(pc: Pc, status: CpuStatus, cur: Option<nat>)

  /** `free` is env_free_list from its head. */
  datatype Machine = Machine(envs: seq<Env>, free: seq<nat>, cpus: seq<Cpu>, lock: Option<nat>)

  // ---- kern/env.c ----

  function NextId(id: int, slot: nat): int {
    var s := Int32(id + 0x1000);
    var generation := s - s % NENV;
    (if generation <= 0 then 0x1000 else generation) + slot
  }

  function Envx(envid: int): (i: nat)
    ensures i < NENV
  {
    envid % NENV
  }

  /** envid2env with checkperm set or not: the slot, or None for -E_BAD_ENV.  `me` is curenv. */
  function Envid2Env(envs: seq<Env>, me: nat, envid: int, checkperm: bool): (r: Option<nat>)
    requires |envs| == NENV && me < NENV
    ensures r.Some? ==> r.value < NENV
  {
    if envid == 0 then Some(me)
    else
      var e := Envx(envid);
      if envs[e].status == Free || envs[e].id != envid then None
      else if checkperm && e != me && envs[e].parent != envs[me].id then None
      else Some(e)
  }

  function SetEnv(m: Machine, e: nat, env: Env): (r: Machine)
    requires e < |m.envs|
  {
    m.(envs := m.envs[e := env])
  }

  function SetCpu(m: Machine, c: nat, cpu: Cpu): (r: Machine)
    requires c < |m.cpus|
  {
    m.(cpus := m.cpus[c := cpu])
  }

  /** env_alloc, once env_setup_vm has succeeded. */
  function EnvAlloc(m: Machine, parent: int): (r: Machine)
    requires m.free != [] && m.free[0] < |m.envs|
  {
    var e := m.free[0];
    var env := m.envs[e];
    SetEnv(m, e, env.(id := NextId(env.id, e), parent := parent, status := Runnable,
                      runs := 0, eax := 0, recving := false))
      .(free := m.free[1..])
  }

  function EnvFree(m: Machine, e: nat): (r: Machine)
    requires e < |m.envs|
  {
    SetEnv(m, e, m.envs[e].(status := Free)).(free := [e] + m.free)
  }

  /** The part of env_destroy before it may schedule. */
  function EnvDestroy(m: Machine, c: nat, e: nat): (r: Machine)
    requires e < |m.envs| && c < |m.cpus|
  {
    var cpu := m.cpus[c];
    if m.envs[e].status == Running && cpu.cur != Some(e) then
      SetCpu(SetEnv(m, e, m.envs[e].(status := Dying)), c, cpu.(pc := Resume))
    else if cpu.cur == Some(e) then
      SetCpu(EnvFree(m, e), c, cpu.(pc := Yield, cur := None))
    else
      SetCpu(EnvFree(m, e), c, cpu.(pc := Resume))
  }

  function EnvRun(m: Machine, c: nat, e: nat): (r: Machine)
    requires c < |m.cpus| && e < |m.envs| && (m.cpus[c].cur.Some? ==> m.cpus[c].cur.value < |m.envs|)
  {
    var cur := m.cpus[c].cur;
    var m1 := if cur.Some? && m.envs[cur.value].status == Running
              then SetEnv(m, cur.value, m.envs[cur.value].(status := Runnable)) else m;
    var env := m1.envs[e];
    SetCpu(SetEnv(m1, e, env.(status := Running, runs := (env.runs + 1) % 0x1_0000_0000)), c,
           m.cpus[c].(pc := User, cur := Some(e)))
      .(lock := None)
  }

  // ---- kern/sched.c ----

  /** The first runnable slot among the `n` that follow `start`, in circular order. */
  function Scan(envs: seq<Env>, start: nat, n: nat): (r: Option<nat>)
    requires |envs| == NENV && n <= NENV
    ensures r.Some? ==> r.value < NENV && envs[r.value].status == Runnable
    decreases n
  {
    if n == 0 then None
    else match Scan(envs, start, n - 1)
      case Some(j) => Some(j)
      case None => if envs[(start + n - 1) % NENV].status == Runnable then Some((start + n - 1) % NENV) else None
  }

  function Start(m: Machine, c: nat): nat
    requires c < |m.cpus| && (m.cpus[c].cur.Some? ==> m.cpus[c].cur.value < |m.envs|)
  {
    match m.cpus[c].cur case Some(e) => Envx(m.envs[e].id) + 1 case None => 0
  }

  predicate Alive(envs: seq<Env>) {
    exists i :: 0 <= i < |envs| && (envs[i].status == Runnable || envs[i].status == Running || envs[i].status == Dying)
  }

  function SchedHalt(m: Machine, c: nat): (r: Machine)
    requires c < |m.cpus|
  {
    if Alive(m.envs) then SetCpu(m, c, Cpu(Idle, Halted, None)).(lock := None)
    else SetCpu(m, c, m.cpus[c].(pc := Monitor))
  }

  function SchedYield(m: Machine, c: nat): (r: Machine)
    requires |m.envs| == NENV && c < |m.cpus| && (m.cpus[c].cur.Some? ==> m.cpus[c].cur.value < NENV)
  {
    var cur := m.cpus[c].cur;
    match Scan(m.envs, Start(m, c), NENV)
    case Some(j) => EnvRun(m, c, j)
    case None =>
      if cur.Some? && m.envs[cur.value].status == Running then EnvRun(m, c, cur.value) else SchedHalt(m, c)
  }

  // ---- kern/syscall.c ----

  /** The page part of a send: none is offered, the offer is invalid, or a page is offered and
      there is or is not memory for the receiver's page table. */
  datatype PageSend = NoPage | BadPage | GoodPage(perm: nat, memory: bool)

  datatype Op =
    | Other                                                // a trap that changes no environment
    | SysYield
    | SysExofork(memory: bool)
    | SysEnvSetStatus(envid: int, status: Status)
    | SysEnvDestroy(envid: int)
    | Fatal                                                // env_destroy(curenv)
    | SysIpcTrySend(envid: int, value: Uint32, page: PageSend)
    | SysIpcRecv(dstva: nat)

  /** sys_ipc_try_send by `me`: the return value and the machine after it. */
  function IpcTrySend(m: Machine, me: nat, envid: int, value: Uint32, page: PageSend): (r: (int, Machine))
    requires |m.envs| == NENV && me < NENV
  {
    match Envid2Env(m.envs, me, envid, false)
    case None => (-E_BAD_ENV, m)
    case Some(e) =>
      var to := m.envs[e];
      if !to.recving then (-E_IPC_NOT_RECV, m)
      else if page == BadPage then (-E_INVAL, m)
      else if page.GoodPage? && to.dstva < UTOP && !page.memory then (-E_NO_MEM, m)
      else (0, SetEnv(m, e, to.(recving := false, from := m.envs[me].id, value := value, status := Runnable, eax := 0,
                                perm := if page.GoodPage? && to.dstva < UTOP then page.perm else to.perm)))
  }

  function IpcRecv(m: Machine, c: nat, me: nat, dstva: nat): (r: (int, Machine))
    requires me < |m.envs| && c < |m.cpus|
  {
    if dstva < UTOP && dstva % PGSIZE != 0 then (-E_INVAL, SetCpu(m, c, m.cpus[c].(pc := Resume)))
    else (0, SetCpu(SetEnv(m, me, m.envs[me].(recving := true, status := NotRunnable, dstva := dstva)), c,
                    m.cpus[c].(pc := Yield)))
  }

  function Exofork(m: Machine, me: nat, memory: bool): (r: (int, Machine))
    requires |m.envs| == NENV && me < NENV && (m.free != [] ==> m.free[0] < NENV)
  {
    if m.free == [] then (-E_NO_FREE_ENV, m)
    else if !memory then (-E_NO_MEM, m)
    else
      var m1 := EnvAlloc(m, m.envs[me].id);
      var e := m.free[0];
      (m1.envs[e].id, SetEnv(m1, e, m1.envs[e].(status := NotRunnable, eax := 0)))
  }

  function EnvSetStatus(m: Machine, me: nat, envid: int, status: Status): (r: (int, Machine))
    requires |m.envs| == NENV && me < NENV
  {
    if status != NotRunnable && status != Runnable then (-E_INVAL, m)
    else match Envid2Env(m.envs, me, envid, true)
      case None => (-E_BAD_ENV, m)
      case Some(e) => (0, SetEnv(m, e, m.envs[e].(status := status)))
  }

  // ---- kern/trap.c, and the steps of one CPU ----

  datatype Action =
    | Trap                     // the hardware takes the CPU from user code into trap()
    | Wake                     // a timer interrupt in the hlt loop
    | StartCpu                   // mp_main, or i386_init on the boot CPU
    | Acquire
    | Create                   // env_create, by the boot CPU before it schedules
    | Enter                    // from the lock to trap_dispatch
    | Handle(op: Op)
    | Back                     // from trap_dispatch to the end of trap()
    | Schedule

  ghost predicate WellTyped(m: Machine) {
    && |m.envs| == NENV
    && (forall c :: 0 <= c < |m.cpus| && m.cpus[c].cur.Some? ==> m.cpus[c].cur.value < NENV)
    && (forall k :: 0 <= k < |m.free| ==> m.free[k] < NENV)
  }

  /** The handler's own effect. */
  function Served(m: Machine, c: nat, op: Op): (r: Machine)
    requires |m.envs| == NENV && c < |m.cpus| && m.cpus[c].cur.Some? && m.cpus[c].cur.value < NENV
    requires m.free != [] ==> m.free[0] < NENV
  {
    var me := m.cpus[c].cur.value;
    var cpu := m.cpus[c];
    match op
    case Other => SetCpu(m, c, cpu.(pc := Resume))
    case SysYield => SetCpu(m, c, cpu.(pc := Yield))
    case SysExofork(memory) => SetCpu(Exofork(m, me, memory).1, c, cpu.(pc := Resume))
    case SysEnvSetStatus(envid, status) => SetCpu(EnvSetStatus(m, me, envid, status).1, c, cpu.(pc := Resume))
    case SysEnvDestroy(envid) =>
      (match Envid2Env(m.envs, me, envid, true)
       case None => SetCpu(m, c, cpu.(pc := Resume))
       case Some(e) => EnvDestroy(m, c, e))
    case Fatal => EnvDestroy(m, c, me)
    case SysIpcTrySend(envid, value, page) => SetCpu(IpcTrySend(m, me, envid, value, page).1, c, cpu.(pc := Resume))
    case SysIpcRecv(dstva) => IpcRecv(m, c, me, dstva).1
  }

  /** What the handler returns to trap_dispatch.  sys_yield, a receive that blocks and a caller that
      destroys itself do not return. */
  function Result(m: Machine, c: nat, op: Op): Option<int>
    requires |m.envs| == NENV && c < |m.cpus| && m.cpus[c].cur.Some? && m.cpus[c].cur.value < NENV
    requires m.free != [] ==> m.free[0] < NENV
  {
    var me := m.cpus[c].cur.value;
    match op
    case SysExofork(memory) => Some(Exofork(m, me, memory).0)
    case SysEnvSetStatus(envid, status) => Some(EnvSetStatus(m, me, envid, status).0)
    case SysEnvDestroy(envid) =>
      (match Envid2Env(m.envs, me, envid, true)
       case None => Some(-E_BAD_ENV)
       case Some(e) => if e == me then None else Some(0))
    case SysIpcTrySend(envid, value, page) => Some(IpcTrySend(m, me, envid, value, page).0)
    case SysIpcRecv(dstva) => var r := IpcRecv(m, c, me, dstva).0; if r == 0 then None else Some(r)
    case _ => None
  }

  /** trap_dispatch leaves the result in the caller's eax. */
  function Answer(m: Machine, me: nat, r: int): Machine
    requires me < |m.envs|
  {
    SetEnv(m, me, m.envs[me].(eax := r))
  }

  function Handled(m: Machine, c: nat, op: Op): (r: Machine)
    requires |m.envs| == NENV && c < |m.cpus| && m.cpus[c].cur.Some? && m.cpus[c].cur.value < NENV
    requires m.free != [] ==> m.free[0] < NENV
  {
    match Result(m, c, op)
    case Some(r) => Answer(Served(m, c, op), m.cpus[c].cur.value, r)
    case None => Served(m, c, op)
  }

  /** The machine after CPU `c` takes the step, or None where it cannot. */
  ghost function Step(m: Machine, c: nat, a: Action): (r: Option<Machine>)
    requires WellTyped(m) && c < |m.cpus|
  {
    var cpu := m.cpus[c];
    match a
    case Trap => if cpu.pc == User then Some(SetCpu(m, c, cpu.(pc := Spin(FromUser)))) else None
    case Wake => if cpu.pc == Idle then Some(SetCpu(m, c, cpu.(pc := Spin(FromHalt), status := Started))) else None
    case StartCpu => if cpu.pc == Boot then Some(SetCpu(m, c, cpu.(pc := Spin(FromBoot), status := Started))) else None
    case Acquire =>
      if cpu.pc.Spin? && m.lock == None
      then Some(SetCpu(m, c, cpu.(pc := Entered(cpu.pc.entry))).(lock := Some(c)))
      else None
    case Create => if cpu.pc == Entered(FromBoot) && m.free != [] then Some(EnvAlloc(m, 0)) else None
    case Enter =>
      if !cpu.pc.Entered? then None
      else if cpu.pc.entry != FromUser then Some(SetCpu(m, c, cpu.(pc := Yield)))
      else if cpu.cur == None then None
      else if m.envs[cpu.cur.value].status == Dying then
        Some(SetCpu(EnvFree(m, cpu.cur.value), c, cpu.(pc := Yield, cur := None)))
      else Some(SetCpu(m, c, cpu.(pc := Dispatch)))
    case Handle(op) => if cpu.pc == Dispatch && cpu.cur.Some? then Some(Handled(m, c, op)) else None
    case Back =>
      if cpu.pc != Resume then None
      else if cpu.cur.Some? && m.envs[cpu.cur.value].status == Running then Some(EnvRun(m, c, cpu.cur.value))
      else Some(SetCpu(m, c, cpu.(pc := Yield)))
    case Schedule => if cpu.pc == Yield then Some(SchedYield(m, c)) else None
  }

  // ---- What every run keeps ----

  predicate Holding(pc: Pc) {
    pc.Entered? || pc == Dispatch || pc == Resume || pc == Yield || pc == Monitor
  }

  /** The CPU has left user code or not yet returned to it, on behalf of `cur`. */
  predicate Serving(pc: Pc) {
    pc == User || pc == Spin(FromUser) || pc == Entered(FromUser) || pc == Dispatch
  }

  /** The big-lock discipline. */
  ghost predicate LockInv(m: Machine) {
    && (forall c :: 0 <= c < |m.cpus| ==> (Holding(m.cpus[c].pc) <==> m.lock == Some(c)))
    && (forall c :: 0 <= c < |m.cpus| ==> (m.cpus[c].status == Halted <==> m.cpus[c].pc == Idle))
    && (forall c :: 0 <= c < |m.cpus| && m.cpus[c].status == Unused ==> m.cpus[c].pc == Boot)
    && (m.lock.Some? ==> m.lock.value < |m.cpus|)
  }

  ghost predicate Current(m: Machine, c: nat, e: nat) {
    c < |m.cpus| && m.cpus[c].cur == Some(e)
  }

  ghost predicate Busy(m: Machine, e: nat)
    requires WellTyped(m) && e < NENV
  {
    m.envs[e].status == Running || m.envs[e].status == Dying
  }

  /** What CPU `c` may have as its curenv, by where its control is. */
  predicate CurOk(cpu: Cpu, status: Status) {
    if Serving(cpu.pc) then status == Running || (status == Dying && cpu.pc != Dispatch)
    else (cpu.pc == Resume || cpu.pc == Yield || cpu.pc == Monitor) && status != Free && status != Dying
  }

  /** No environment is current on two CPUs. */
  ghost predicate Distinct(m: Machine) {
    forall c: nat, c': nat, e: nat :: Current(m, c, e) && Current(m, c', e) ==> c == c'
  }

  ghost predicate CurInv(m: Machine)
    requires WellTyped(m)
  {
    && (forall c: nat :: c < |m.cpus| && Serving(m.cpus[c].pc) ==> m.cpus[c].cur.Some?)
    && (forall c: nat, e: nat :: Current(m, c, e) ==> CurOk(m.cpus[c], m.envs[e].status))
  }

  /** Every running or dying environment is some CPU's. */
  ghost predicate BusyInv(m: Machine)
    requires WellTyped(m)
  {
    forall e: nat :: e < NENV && Busy(m, e) ==> exists c: nat :: Current(m, c, e)
  }

  ghost predicate RecvInv(m: Machine)
    requires WellTyped(m)
  {
    forall e: nat :: e < NENV && m.envs[e].recving && m.envs[e].status != Free ==> m.envs[e].status == NotRunnable
  }

  /** Ids name their slots, and the free list holds exactly the free slots. */
  ghost predicate IdInv(m: Machine)
    requires WellTyped(m)
  {
    && (forall e: nat :: e < NENV ==> ValidId(m.envs[e].id, e) || (m.envs[e].id == 0 && m.envs[e].status == Free))
    && (forall k, n :: 0 <= k < n < |m.free| ==> m.free[k] != m.free[n])
    && (forall e: nat :: e < NENV ==> (m.envs[e].status == Free <==> e in m.free))
  }

  /** A positive id whose low bits are the slot and whose generation is a multiple of 2^12. */
  predicate ValidId(id: int, slot: nat) {
    0x1000 <= id < 0x8000_0000 && id % 0x1000 == slot && slot < NENV
  }

  ghost predicate Inv(m: Machine) {
    WellTyped(m) && LockInv(m) && Distinct(m) && CurInv(m) && BusyInv(m) && RecvInv(m) && IdInv(m)
  }

  /** Three uses the kernel does not guard against, and its user library does not make: destroying
      an environment that another CPU is about to collect, setting the status of an environment
      that is current elsewhere, and making one runnable that is blocked in a receive. */
  ghost predicate Allowed(m: Machine, c: nat, a: Action)
    requires WellTyped(m) && c < |m.cpus|
  {
    if !a.Handle? || m.cpus[c].cur == None then true
    else
      var me := m.cpus[c].cur.value;
      match a.op
      case SysEnvDestroy(envid) =>
        var e := Envid2Env(m.envs, me, envid, true);
        e.Some? ==> m.envs[e.value].status != Dying
      case SysEnvSetStatus(envid, status) =>
        var e := Envid2Env(m.envs, me, envid, true);
        e.Some? && (status == NotRunnable || status == Runnable) && e.value != me ==>
          !Busy(m, e.value) && (status == Runnable ==> !m.envs[e.value].recving)
      case _ => true
  }

  lemma NextIdValid(id: int, slot: nat)
    requires slot < NENV && (id == 0 || ValidId(id, slot))
    ensures ValidId(NextId(id, slot), slot)
    ensures NextId(id, slot) == if id == 0 || id + 0x1000 >= 0x8000_0000 then 0x1000 + slot else id + 0x1000
  {
    hide Int32;
    Int32Is(id + 0x1000);
    var s := Int32(id + 0x1000);
    if id + 0x1000 < 0x8000_0000 {
      var q := id / 0x1000 + 1;
      assert s == q * 0x1000 + id % 0x1000;
      LowBits(q, id % 0x1000);
      assert NextId(id, slot) == q * 0x1000 + slot;
    }
  }

  lemma Int32Is(x: int)
    requires 0 <= x < 0x8000_1000
    ensures Int32(x) == if x < 0x8000_0000 then x else x - 0x1_0000_0000
  {
  }

  lemma LowBits(q: nat, r: nat)
    requires r < NENV
    ensures (q * 0x1000 + r) % NENV == r
  {
  }

  /** A CPU moves on, keeping its environment or having none. */
  lemma CpuMoves(m: Machine, c: nat, cpu: Cpu, lock: Option<nat>)
    requires Inv(m) && c < |m.cpus|
    requires cpu.cur == m.cpus[c].cur || (cpu.cur == None && !Busy(m, m.cpus[c].cur.value))
    requires Serving(cpu.pc) ==> cpu.cur.Some?
    requires cpu.cur.Some? ==> CurOk(cpu, m.envs[cpu.cur.value].status)
    requires (cpu.status == Halted <==> cpu.pc == Idle) && (cpu.status == Unused ==> cpu.pc == Boot)
    requires Holding(cpu.pc) <==> lock == Some(c)
    requires lock == m.lock || (lock == Some(c) && m.lock == None) || (lock == None && m.lock == Some(c))
    ensures Inv(SetCpu(m, c, cpu).(lock := lock))
  {
    var t := SetCpu(m, c, cpu).(lock := lock);
    assert forall c': nat, e: nat :: Current(t, c', e) ==> Current(m, c', e);
    forall e: nat | e < NENV && Busy(t, e) ensures exists c': nat :: Current(t, c', e) {
      assert Busy(m, e);
      var c': nat :| Current(m, c', e);
      assert Current(t, c', e);
    }
  }

  /** An environment changes, neither freed nor newly running. */
  lemma EnvChanges(m: Machine, e: nat, env: Env)
    requires Inv(m) && e < NENV && m.envs[e].status != Free && env.status != Free && env.id == m.envs[e].id
    requires forall c: nat :: Current(m, c, e) ==> CurOk(m.cpus[c], env.status)
    requires env.status == Running || env.status == Dying ==> Busy(m, e)
    requires env.recving ==> env.status == NotRunnable
    ensures Inv(SetEnv(m, e, env))
  {
    var t := SetEnv(m, e, env);
    assert forall c: nat, x: nat :: Current(t, c, x) <==> Current(m, c, x);
    forall x: nat | x < NENV && Busy(t, x) ensures exists c: nat :: Current(t, c, x) {
      assert Busy(m, x);
      var c: nat :| Current(m, c, x);
      assert Current(t, c, x);
    }
  }

  lemma FreedIds(m: Machine, e: nat)
    requires WellTyped(m) && IdInv(m) && e < NENV && m.envs[e].status != Free
    ensures WellTyped(EnvFree(m, e)) && IdInv(EnvFree(m, e))
  {
    var t := EnvFree(m, e);
    assert e !in m.free;
    forall k, n | 0 <= k < n < |t.free| ensures t.free[k] != t.free[n] {
      assert t.free[n] == m.free[n - 1] && m.free[n - 1] in m.free;
      if k > 0 { assert t.free[k] == m.free[k - 1]; }
    }
    forall k | 0 <= k < |t.free| ensures t.free[k] < NENV {
      if k > 0 { assert t.free[k] == m.free[k - 1]; }
    }
    forall x: nat | x < NENV ensures t.envs[x].status == Free <==> x in t.free {}
  }

  /** An environment that no CPU runs is freed. */
  lemma OtherFreed(m: Machine, e: nat)
    requires Inv(m) && e < NENV && m.envs[e].status != Free && (forall c: nat :: !Current(m, c, e))
    ensures Inv(EnvFree(m, e))
  {
    hide IdInv;
    var t := EnvFree(m, e);
    FreedIds(m, e);
    assert forall c: nat, x: nat :: Current(t, c, x) <==> Current(m, c, x);
    forall x: nat | x < NENV && Busy(t, x) ensures exists c: nat :: Current(t, c, x) {
      assert Busy(m, x);
      var c: nat :| Current(m, c, x);
      assert Current(t, c, x);
    }
  }

  /** The environment that CPU `c` serves is freed. */
  lemma CurrentFreed(m: Machine, c: nat, e: nat)
    requires Inv(m) && Current(m, c, e) && Holding(m.cpus[c].pc)
    ensures Inv(SetCpu(EnvFree(m, e), c, m.cpus[c].(pc := Yield, cur := None)))
  {
    hide IdInv;
    var t := SetCpu(EnvFree(m, e), c, m.cpus[c].(pc := Yield, cur := None));
    FreedIds(m, e);
    SameIds(EnvFree(m, e), t);
    forall c': nat, x: nat | Current(t, c', x) ensures Current(m, c', x) && x != e {
      assert Current(m, c', x) && c' != c;
    }
    forall x: nat | x < NENV && Busy(t, x) ensures exists c': nat :: Current(t, c', x) {
      assert Busy(m, x);
      var c': nat :| Current(m, c', x);
      assert Current(t, c', x);
    }
  }

  lemma SameIds(m: Machine, t: Machine)
    requires WellTyped(m) && WellTyped(t) && IdInv(m) && t.free == m.free
    requires forall e: nat :: e < NENV ==>
               t.envs[e].id == m.envs[e].id && (t.envs[e].status == Free <==> m.envs[e].status == Free)
    ensures IdInv(t)
  {
  }

  lemma AllocatedIds(m: Machine, e: nat, env: Env)
    requires WellTyped(m) && IdInv(m) && m.free != [] && e == m.free[0] && env.id == NextId(m.envs[e].id, e)
    requires env.status != Free
    ensures var t := SetEnv(m, e, env).(free := m.free[1..]); WellTyped(t) && IdInv(t)
  {
    var t := SetEnv(m, e, env).(free := m.free[1..]);
    NextIdValid(m.envs[e].id, e);
    assert m.free == [e] + t.free;
    assert forall k :: 0 <= k < |t.free| ==> t.free[k] == m.free[k + 1];
    assert e !in t.free;
    forall x: nat | x < NENV ensures t.envs[x].status == Free <==> x in t.free {}
  }

  lemma Allocated(m: Machine, e: nat, env: Env)
    requires Inv(m) && m.free != [] && e == m.free[0] && env.id == NextId(m.envs[e].id, e)
    requires (env.status == Runnable || env.status == NotRunnable) && !env.recving
    ensures Inv(SetEnv(m, e, env).(free := m.free[1..]))
  {
    assert m.envs[e].status == Free by { assert e in m.free; }
    hide IdInv;
    var t := SetEnv(m, e, env).(free := m.free[1..]);
    AllocatedIds(m, e, env);
    assert forall c: nat, x: nat :: Current(t, c, x) <==> Current(m, c, x);
    assert forall c: nat :: Current(m, c, e) ==> CurOk(m.cpus[c], Free);
    forall x: nat | x < NENV && Busy(t, x) ensures exists c: nat :: Current(t, c, x) {
      assert Busy(m, x);
      var c: nat :| Current(m, c, x);
      assert Current(t, c, x);
    }
  }

  /** A CPU that holds the lock is the only one not serving user code: the environments that
      other CPUs have are running or dying. */
  lemma OthersServe(m: Machine, c: nat, c': nat, e: nat)
    requires Inv(m) && c < |m.cpus| && m.lock == Some(c) && Current(m, c', e) && c' != c
    ensures Busy(m, e) && Serving(m.cpus[c'].pc)
  {
  }

  /** The result in eax is no concern of the invariant. */
  lemma AnswerKeeps(m: Machine, me: nat, r: int)
    requires Inv(m) && me < NENV
    ensures Inv(Answer(m, me, r))
  {
    hide ValidId, CurOk;
    var t := Answer(m, me, r);
    assert forall c: nat, e: nat :: Current(t, c, e) <==> Current(m, c, e);
    assert forall e: nat :: e < NENV ==> Busy(t, e) == Busy(m, e);
  }

  lemma AnswerKeepsIff(m: Machine, c: nat, op: Op)
    requires WellTyped(m) && c < |m.cpus| && m.cpus[c].cur.Some?
    ensures Inv(Handled(m, c, op)) <==> Inv(Served(m, c, op))
  {
    hide Inv, Served, Result;
    var me, t := m.cpus[c].cur.value, Served(m, c, op);
    ServedSize(m, c, op);
    if Result(m, c, op).Some? {
      var r := Result(m, c, op).value;
      if Inv(t) { AnswerKeeps(t, me, r); }
      if Inv(Answer(t, me, r)) {
        AnswerKeeps(Answer(t, me, r), me, t.envs[me].eax);
        assert Answer(Answer(t, me, r), me, t.envs[me].eax).envs == t.envs;
      }
    }
  }

  lemma ServedSize(m: Machine, c: nat, op: Op)
    requires WellTyped(m) && c < |m.cpus| && m.cpus[c].cur.Some?
    ensures |Served(m, c, op).envs| == NENV
  {
    hide Envid2Env, NextId;
  }

  lemma ServedKeeps(m: Machine, c: nat, op: Op)
    requires Inv(m) && c < |m.cpus| && Allowed(m, c, Handle(op)) && m.cpus[c].pc == Dispatch && m.cpus[c].cur.Some?
    ensures Inv(Served(m, c, op))
  {
    var cpu, me := m.cpus[c], m.cpus[c].cur.value;
    assert Current(m, c, me) && m.envs[me].status == Running;
    match op
    case Other => CpuMoves(m, c, cpu.(pc := Resume), m.lock);
    case SysYield => CpuMoves(m, c, cpu.(pc := Yield), m.lock);
    case SysExofork(memory) =>
      var t := Exofork(m, me, memory).1;
      ExoforkKeeps(m, me, memory);
      assert t.envs[me].status == Running;
      CpuMoves(t, c, cpu.(pc := Resume), t.lock);
    case SysEnvSetStatus(envid, status) =>
      SetStatusKeeps(m, c, envid, status);
    case SysEnvDestroy(envid) =>
      var r := Envid2Env(m.envs, me, envid, true);
      if r == None { CpuMoves(m, c, cpu.(pc := Resume), m.lock); } else { DestroyKeeps(m, c, r.value); }
    case Fatal => DestroyKeeps(m, c, me);
    case SysIpcTrySend(envid, value, page) =>
      SendKeeps(m, c, envid, value, page);
    case SysIpcRecv(dstva) =>
      RecvKeeps(m, c, dstva);
  }

  lemma ExoforkKeeps(m: Machine, me: nat, memory: bool)
    requires Inv(m) && me < NENV && m.envs[me].status == Running
    ensures var t := Exofork(m, me, memory).1;
            Inv(t) && t.cpus == m.cpus && t.lock == m.lock && t.envs[me] == m.envs[me]
  {
    if m.free != [] && memory {
      var e := m.free[0];
      assert e in m.free;
      var m1 := EnvAlloc(m, m.envs[me].id);
      Allocated(m, e, m1.envs[e].(status := NotRunnable, eax := 0));
      assert Exofork(m, me, memory).1 ==
             SetEnv(m, e, m1.envs[e].(status := NotRunnable, eax := 0)).(free := m.free[1..]);
    }
  }

  lemma SetStatusKeeps(m: Machine, c: nat, envid: int, status: Status)
    requires Inv(m) && c < |m.cpus| && Allowed(m, c, Handle(SysEnvSetStatus(envid, status)))
    requires m.cpus[c].pc == Dispatch && m.cpus[c].cur.Some?
    ensures Inv(Served(m, c, SysEnvSetStatus(envid, status)))
  {
    var cpu, me := m.cpus[c], m.cpus[c].cur.value;
    assert Current(m, c, me) && m.envs[me].status == Running;
    CpuMoves(m, c, cpu.(pc := Resume), m.lock);
    var m1 := SetCpu(m, c, cpu.(pc := Resume)).(lock := m.lock);
    var r := Envid2Env(m.envs, me, envid, true);
    if (status == NotRunnable || status == Runnable) && r.Some? {
      var e := r.value;
      assert envid == 0 ==> e == me;
      forall c': nat | Current(m1, c', e) ensures CurOk(m1.cpus[c'], status) {
        assert Current(m, c', e);
        if c' != c { OthersServe(m, c, c', e); }
      }
      EnvChanges(m1, e, m.envs[e].(status := status));
      assert Served(m, c, SysEnvSetStatus(envid, status)) == SetEnv(m1, e, m.envs[e].(status := status));
    } else {
      assert Served(m, c, SysEnvSetStatus(envid, status)) == m1;
    }
  }

  lemma DestroyKeeps(m: Machine, c: nat, e: nat)
    requires Inv(m) && c < |m.cpus| && m.cpus[c].pc == Dispatch && m.cpus[c].cur.Some?
    requires e < NENV && m.envs[e].status != Free && m.envs[e].status != Dying
    ensures Inv(EnvDestroy(m, c, e))
  {
    var cpu, me := m.cpus[c], m.cpus[c].cur.value;
    assert Current(m, c, me);
    if me == e {
      CurrentFreed(m, c, e);
    } else {
      CpuMoves(m, c, cpu.(pc := Resume), m.lock);
      var m1 := SetCpu(m, c, cpu.(pc := Resume)).(lock := m.lock);
      if m.envs[e].status == Running {
        forall c': nat | Current(m1, c', e) ensures CurOk(m1.cpus[c'], Dying) {
          assert Current(m, c', e) && c' != c;
          OthersServe(m, c, c', e);
        }
        EnvChanges(m1, e, m.envs[e].(status := Dying));
        assert EnvDestroy(m, c, e) == SetEnv(m1, e, m.envs[e].(status := Dying));
      } else {
        forall c': nat ensures !Current(m1, c', e) {
          if Current(m, c', e) { OthersServe(m, c, c', e); }
        }
        OtherFreed(m1, e);
        assert EnvDestroy(m, c, e) == EnvFree(m1, e);
      }
    }
  }

  lemma SendKeeps(m: Machine, c: nat, envid: int, value: Uint32, page: PageSend)
    requires Inv(m) && c < |m.cpus| && m.cpus[c].pc == Dispatch && m.cpus[c].cur.Some?
    ensures Inv(Served(m, c, SysIpcTrySend(envid, value, page)))
  {
    var cpu, me := m.cpus[c], m.cpus[c].cur.value;
    assert Current(m, c, me) && m.envs[me].status == Running;
    CpuMoves(m, c, cpu.(pc := Resume), m.lock);
    var m1 := SetCpu(m, c, cpu.(pc := Resume)).(lock := m.lock);
    var r := IpcTrySend(m, me, envid, value, page);
    if r.0 == 0 {
      var e := Envid2Env(m.envs, me, envid, false).value;
      assert e != me;
      forall c': nat ensures !Current(m1, c', e) {
        if Current(m, c', e) { OthersServe(m, c, c', e); }
      }
      EnvChanges(m1, e, r.1.envs[e]);
      assert Served(m, c, SysIpcTrySend(envid, value, page)) == SetEnv(m1, e, r.1.envs[e]);
    } else {
      assert Served(m, c, SysIpcTrySend(envid, value, page)) == m1;
    }
  }

  lemma RecvKeeps(m: Machine, c: nat, dstva: nat)
    requires Inv(m) && c < |m.cpus| && m.cpus[c].pc == Dispatch && m.cpus[c].cur.Some?
    ensures Inv(Served(m, c, SysIpcRecv(dstva)))
  {
    var cpu, me := m.cpus[c], m.cpus[c].cur.value;
    assert Current(m, c, me) && m.envs[me].status == Running;
    if dstva < UTOP && dstva % PGSIZE != 0 {
      CpuMoves(m, c, cpu.(pc := Resume), m.lock);
    } else {
      CpuMoves(m, c, cpu.(pc := Yield), m.lock);
      var m1 := SetCpu(m, c, cpu.(pc := Yield)).(lock := m.lock);
      var env := m.envs[me].(recving := true, status := NotRunnable, dstva := dstva);
      forall c': nat | Current(m1, c', me) ensures CurOk(m1.cpus[c'], NotRunnable) {
        assert Current(m, c', me);
      }
      EnvChanges(m1, me, env);
      assert Served(m, c, SysIpcRecv(dstva)) == SetEnv(m1, me, env);
    }
  }

  lemma RunKeepsCur(m: Machine, c: nat, e: nat)
    requires Inv(m) && c < |m.cpus| && (m.cpus[c].pc == Resume || m.cpus[c].pc == Yield) && e < NENV
    requires m.envs[e].status == Runnable || (m.cpus[c].cur == Some(e) && m.envs[e].status == Running)
    ensures var t := EnvRun(m, c, e); WellTyped(t) && Distinct(t) && CurInv(t) && BusyInv(t)
  {
    hide IdInv, RecvInv;
    var t := EnvRun(m, c, e);
    var cur := m.cpus[c].cur;
    forall c': nat, x: nat | Current(m, c', x) && c' != c ensures x != e && t.envs[x] == m.envs[x] {
      OthersServe(m, c, c', x);
      assert cur.Some? ==> Current(m, c, cur.value);
    }
    forall c': nat, x: nat | Current(t, c', x) ensures (c' == c && x == e) || (c' != c && Current(m, c', x)) {}
    forall x: nat | x < NENV && Busy(t, x) ensures exists c': nat :: Current(t, c', x) {
      if x == e {
        assert Current(t, c, e);
      } else {
        assert Busy(m, x);
        var c': nat :| Current(m, c', x);
        assert Current(t, c', x);
      }
    }
  }

  lemma RunKeeps(m: Machine, c: nat, e: nat)
    requires Inv(m) && c < |m.cpus| && (m.cpus[c].pc == Resume || m.cpus[c].pc == Yield) && e < NENV
    requires m.envs[e].status == Runnable || (m.cpus[c].cur == Some(e) && m.envs[e].status == Running)
    ensures Inv(EnvRun(m, c, e))
  {
    hide Distinct, CurInv, BusyInv, IdInv;
    RunKeepsCur(m, c, e);
    SameIds(m, EnvRun(m, c, e));
  }

  lemma LockHeld(m: Machine, c: nat)
    requires LockInv(m) && c < |m.cpus| && Holding(m.cpus[c].pc)
    ensures m.lock == Some(c) && m.cpus[c].status == Started
  {
  }

  lemma YieldKeeps(m: Machine, c: nat)
    requires Inv(m) && c < |m.cpus| && m.cpus[c].pc == Yield
    ensures Inv(SchedYield(m, c))
  {
    hide Scan, Alive, EnvRun, LockInv, Distinct, BusyInv, RecvInv, IdInv;
    LockHeld(m, c);
    var cur := m.cpus[c].cur;
    match Scan(m.envs, Start(m, c), NENV)
    case Some(j) => RunKeeps(m, c, j);
    case None =>
      if cur.Some? && m.envs[cur.value].status == Running {
        RunKeeps(m, c, cur.value);
      } else {
        assert cur.Some? ==> Current(m, c, cur.value);
        if Alive(m.envs) {
          CpuMoves(m, c, Cpu(Idle, Halted, None), None);
        } else {
          CpuMoves(m, c, m.cpus[c].(pc := Monitor), m.lock);
        }
      }
  }

  /** Every step that the two hypotheses allow keeps the invariant. */
  lemma StepKeeps(m: Machine, c: nat, a: Action)
    requires Inv(m) && c < |m.cpus| && Allowed(m, c, a) && Step(m, c, a).Some?
    ensures Inv(Step(m, c, a).value)
  {
    var cpu := m.cpus[c];
    assert cpu.cur.Some? ==> Current(m, c, cpu.cur.value);
    match a
    case Trap => CpuMoves(m, c, cpu.(pc := Spin(FromUser)), m.lock);
    case Wake => CpuMoves(m, c, cpu.(pc := Spin(FromHalt), status := Started), m.lock);
    case StartCpu => CpuMoves(m, c, cpu.(pc := Spin(FromBoot), status := Started), m.lock);
    case Acquire => CpuMoves(m, c, cpu.(pc := Entered(cpu.pc.entry)), Some(c));
    case Create =>
      var e := m.free[0];
      assert EnvAlloc(m, 0) == SetEnv(m, e, EnvAlloc(m, 0).envs[e]).(free := m.free[1..]);
      Allocated(m, e, EnvAlloc(m, 0).envs[e]);
    case Enter =>
      if cpu.pc.entry != FromUser { CpuMoves(m, c, cpu.(pc := Yield), m.lock); }
      else if m.envs[cpu.cur.value].status == Dying { CurrentFreed(m, c, cpu.cur.value); }
      else { CpuMoves(m, c, cpu.(pc := Dispatch), m.lock); }
    case Handle(op) =>
      ServedKeeps(m, c, op);
      AnswerKeepsIff(m, c, op);
    case Back =>
      if cpu.cur.Some? && m.envs[cpu.cur.value].status == Running { RunKeeps(m, c, cpu.cur.value); }
      else { CpuMoves(m, c, cpu.(pc := Yield), m.lock); }
    case Schedule => YieldKeeps(m, c);
  }

  /** Setting the status of an environment that is current elsewhere, or waking a receiver, and
      freeing an environment that is current elsewhere, each break the invariant at once. */
  lemma StatusBreaks(m: Machine, c: nat, envid: int, status: Status)
    requires Inv(m) && c < |m.cpus| && m.cpus[c].pc == Dispatch && m.cpus[c].cur.Some?
    requires !Allowed(m, c, Handle(SysEnvSetStatus(envid, status)))
    ensures !Inv(Handled(m, c, SysEnvSetStatus(envid, status)))
  {
    AnswerKeepsIff(m, c, SysEnvSetStatus(envid, status));
    var t := Served(m, c, SysEnvSetStatus(envid, status));
    var e := Envid2Env(m.envs, m.cpus[c].cur.value, envid, true).value;
    assert t.envs[e].status == status && t.envs[e].recving == m.envs[e].recving;
    if Busy(m, e) {
      var c': nat :| Current(m, c', e);
      OthersServe(m, c, c', e);
      assert Current(t, c', e);
    }
  }

  lemma DestroyBreaks(m: Machine, c: nat, envid: int)
    requires Inv(m) && c < |m.cpus| && m.cpus[c].pc == Dispatch && m.cpus[c].cur.Some?
    requires !Allowed(m, c, Handle(SysEnvDestroy(envid)))
    ensures !Inv(Handled(m, c, SysEnvDestroy(envid)))
  {
    AnswerKeepsIff(m, c, SysEnvDestroy(envid));
    var t := Served(m, c, SysEnvDestroy(envid));
    var me := m.cpus[c].cur.value;
    var e := Envid2Env(m.envs, me, envid, true).value;
    assert Current(m, c, me) && Busy(m, e);
    var c': nat :| Current(m, c', e);
    OthersServe(m, c, c', e);
    assert Current(t, c', e) && t.envs[e].status == Free;
  }

  /** A step keeps the invariant exactly when it is none of the three uses. */
  lemma StepKeepsIff(m: Machine, c: nat, a: Action)
    requires Inv(m) && c < |m.cpus| && Step(m, c, a).Some?
    ensures Inv(Step(m, c, a).value) <==> Allowed(m, c, a)
  {
    hide LockInv, Distinct, CurInv, BusyInv, RecvInv, IdInv, Envid2Env, Handled;
    if Allowed(m, c, a) {
      StepKeeps(m, c, a);
    } else {
      match a.op
      case SysEnvSetStatus(envid, status) => StatusBreaks(m, c, envid, status);
      case SysEnvDestroy(envid) => DestroyBreaks(m, c, envid);
    }
  }

  // ---- Runs ----

  datatype Event = Event(c: nat, a: Action)

  /** The machine that mem_init and env_init leave: no environment, all CPUs still to start. */
  ghost predicate Init(m: Machine) {
    && |m.envs| == NENV && m.lock == None
    && (forall e :: 0 <= e < NENV ==> m.envs[e].status == Free && m.envs[e].id == 0 && !m.envs[e].recving)
    && m.free == seq(NENV, i => i)
    && (forall c :: 0 <= c < |m.cpus| ==> m.cpus[c].pc == Boot && m.cpus[c].status != Halted && m.cpus[c].cur == None)
  }

  ghost predicate Follows(m: Machine, ev: Event, m': Machine) {
    WellTyped(m) && ev.c < |m.cpus| && Allowed(m, ev.c, ev.a) && Step(m, ev.c, ev.a) == Some(m')
  }

  /** `ms` are the successive machines of a run in which `evs` happen. */
  ghost predicate IsRun(ms: seq<Machine>, evs: seq<Event>) {
    && |ms| == |evs| + 1 && Init(ms[0])
    && forall i :: 0 <= i < |evs| ==> Follows(ms[i], evs[i], ms[i + 1])
  }

  lemma InitKeeps(m: Machine)
    requires Init(m)
    ensures Inv(m)
  {
    forall e: nat | e < NENV ensures e in m.free { assert m.free[e] == e; }
    assert forall c: nat, e: nat :: !Current(m, c, e);
  }

  /** Every machine of every run satisfies the invariant. */
  lemma {:induction false} RunKeepsInv(ms: seq<Machine>, evs: seq<Event>, n: nat)
    requires IsRun(ms, evs) && n < |ms|
    ensures Inv(ms[n])
    decreases n
  {
    hide Inv;
    if n == 0 {
      InitKeeps(ms[0]);
    } else {
      RunKeepsInv(ms, evs, n - 1);
      assert Follows(ms[n - 1], evs[n - 1], ms[n]);
      StepKeeps(ms[n - 1], evs[n - 1].c, evs[n - 1].a);
    }
  }

  /** Whenever the kernel lock is free: each CPU's curenv is NULL or running or dying, no
      environment is current on two CPUs, every running or dying environment is current on one,
      and no CPU is past spin_lock. */
  lemma LockFree(ms: seq<Machine>, evs: seq<Event>, n: nat)
    requires IsRun(ms, evs) && n < |ms| && ms[n].lock == None
    ensures var m := ms[n];
            && WellTyped(m)
            && (forall c: nat, e: nat :: Current(m, c, e) ==> e < NENV && Busy(m, e))
            && (forall c: nat, c': nat, e: nat :: Current(m, c, e) && Current(m, c', e) ==> c == c')
            && (forall e: nat :: e < NENV && Busy(m, e) ==> exists c: nat :: Current(m, c, e))
            && (forall c: nat :: c < |m.cpus| ==> !Holding(m.cpus[c].pc))
  {
    RunKeepsInv(ms, evs, n);
  }

  /** At most one CPU is past spin_lock and before spin_unlock; a CPU that is halted is not, and
      one that spins does not hold the lock already. */
  lemma OneHolder(ms: seq<Machine>, evs: seq<Event>, n: nat, c: nat, c': nat)
    requires IsRun(ms, evs) && n < |ms| && c < |ms[n].cpus| && c' < |ms[n].cpus|
    ensures Holding(ms[n].cpus[c].pc) && Holding(ms[n].cpus[c'].pc) ==> c == c'
    ensures ms[n].cpus[c].status == Halted ==> !Holding(ms[n].cpus[c].pc)
    ensures ms[n].cpus[c].pc.Spin? ==> ms[n].lock != Some(c)
  {
    RunKeepsInv(ms, evs, n);
  }

  /** The lock is taken and released by whole kernel visits: a step that frees it is env_run or
      sched_halt by the CPU that holds it, and leaves that CPU in user code or halted. */
  lemma ReleasedOnExit(ms: seq<Machine>, evs: seq<Event>, n: nat)
    requires IsRun(ms, evs) && n < |evs| && ms[n].lock.Some? && ms[n + 1].lock != ms[n].lock
    ensures var c := evs[n].c;
            && ms[n].lock == Some(c) && ms[n + 1].lock == None && |ms[n + 1].cpus| == |ms[n].cpus|
            && (evs[n].a == Back || evs[n].a == Schedule)
            && (ms[n + 1].cpus[c].pc == User || ms[n + 1].cpus[c].pc == Idle)
  {
    RunKeepsInv(ms, evs, n);
    assert Follows(ms[n], evs[n], ms[n + 1]);
  }
}
