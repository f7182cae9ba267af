/** IPC over whole runs: each successful send answers one receive, and the results of ipc_recv
    are what was sent, in order. */
module Ipc {
  import opened Errors
  import opened Options
  import opened Word32
  import opened Paging
  import opened Machine
  import EnvIds
  import M = Machine

  /** Event: the environment in slot `e` starts to wait. */
  ghost predicate Receives(m: Machine, ev: Event, e: nat)
    requires WellTyped(m) && ev.c < |m.cpus|
  {
    && ev.a.Handle? && ev.a.op.SysIpcRecv? && m.cpus[ev.c].cur == Some(e)
    && IpcRecv(m, ev.c, e, ev.a.op.dstva).0 == 0
  }

  /** Event: a send to the environment in slot `e` succeeds. */
  ghost predicate SendsTo(m: Machine, ev: Event, e: nat)
    requires WellTyped(m) && ev.c < |m.cpus|
  {
    && ev.a.Handle? && ev.a.op.SysIpcTrySend? && m.cpus[ev.c].cur.Some?
    && Envid2Env(m.envs, m.cpus[ev.c].cur.value, ev.a.op.envid, false) == Some(e)
    && IpcTrySend(m, m.cpus[ev.c].cur.value, ev.a.op.envid, ev.a.op.value, ev.a.op.page).0 == 0
  }

  /** A value with the id of its sender. */
  datatype Message = Message(from: int, value: Uint32)

  function Sent(m: Machine, ev: Event): Message
    requires |m.envs| == NENV && ev.c < |m.cpus| && ev.a.Handle? && ev.a.op.SysIpcTrySend?
    requires m.cpus[ev.c].cur.Some? && m.cpus[ev.c].cur.value < NENV
  {
    Message(m.envs[m.cpus[ev.c].cur.value].id, ev.a.op.value)
  }

  /** What thisenv shows, and ipc_recv returns. */
  function Shown(env: Env): Message {
    Message(env.from, env.value)
  }

  /** What happened to the environment in slot `e` since it was allocated: the messages sent to
      it; the messages that it could read after each receive but the last, just before it called
      sys_ipc_recv again; and how many receives it made. */
  datatype Log = Log(sent: seq<Message>, read: seq<Message>, receives: nat)

  ghost function LogAfter(ms: seq<Machine>, evs: seq<Event>, n: nat, e: nat): Log
    requires IsRun(ms, evs) && n <= |evs| && e < NENV
    decreases n
  {
    if n == 0 then Log([], [], 0)
    else
      var log := LogAfter(ms, evs, n - 1, e);
      var m, ev := ms[n - 1], evs[n - 1];
      assert Follows(m, ev, ms[n]);
      if EnvIds.Allocates(m, ev, e) then Log([], [], 0)
      else if Receives(m, ev, e) then
        Log(log.sent, if log.receives > 0 then log.read + [Shown(m.envs[e])] else log.read, log.receives + 1)
      else if SendsTo(m, ev, e) then Log(log.sent + [Sent(m, ev)], log.read, log.receives)
      else log
  }

  ghost predicate LogInv(env: Env, log: Log) {
    && (env.recving ==> log.receives > 0)
    && |log.sent| == log.receives - (if env.recving then 1 else 0)
    && log.sent == log.read + if log.receives > 0 && !env.recving then [Shown(env)] else []
  }

  /** A step that is none of the three leaves the message fields of `e` alone. */
  lemma StepMessage(m: Machine, ev: Event, m': Machine, e: nat)
    requires Inv(m) && Follows(m, ev, m') && e < NENV
    ensures WellTyped(m') && MessageStep(m, ev, m', e)
  {
    StepTyped(m, ev, m');
    if ev.a.Handle? {
      HandledMessage(m, ev.c, ev.a.op, e);
    } else if ev.a == Create {
      hide Inv;
    } else {
      QuietSteps(m, ev, m', e);
    }
  }

  lemma StepTyped(m: Machine, ev: Event, m': Machine)
    requires Inv(m) && Follows(m, ev, m')
    ensures WellTyped(m')
  {
    hide Step, Allowed;
    StepKeeps(m, ev.c, ev.a);
  }

  lemma QuietSteps(m: Machine, ev: Event, m': Machine, e: nat)
    requires WellTyped(m) && Follows(m, ev, m') && e < NENV && WellTyped(m') && !ev.a.Handle? && ev.a != Create
    ensures m'.envs[e].recving == m.envs[e].recving && Shown(m'.envs[e]) == Shown(m.envs[e])
  {
    hide Scan, Alive, Allowed;
  }

  lemma ReceiverWasRunning(m: Machine, c: nat, e: nat)
    requires Inv(m) && c < |m.cpus| && m.cpus[c].cur == Some(e) && m.cpus[c].pc == Dispatch
    ensures !m.envs[e].recving
  {
    assert Current(m, c, e);
  }

  /** What one event does to the message fields of slot `e`. */
  ghost predicate MessageStep(m: Machine, ev: Event, m': Machine, e: nat)
    requires WellTyped(m) && ev.c < |m.cpus| && e < NENV && |m'.envs| == NENV
  {
    && (EnvIds.Allocates(m, ev, e) ==> !m'.envs[e].recving)
    && (!EnvIds.Allocates(m, ev, e) && Receives(m, ev, e) ==>
          !m.envs[e].recving && m'.envs[e].recving && Shown(m'.envs[e]) == Shown(m.envs[e]))
    && (SendsTo(m, ev, e) ==> m.envs[e].recving && !m'.envs[e].recving && Shown(m'.envs[e]) == Sent(m, ev))
    && (!EnvIds.Allocates(m, ev, e) && !Receives(m, ev, e) && !SendsTo(m, ev, e) ==>
          m'.envs[e].recving == m.envs[e].recving && Shown(m'.envs[e]) == Shown(m.envs[e]))
  }

  lemma SendOp(m: Machine, c: nat, op: Op, e: nat)
    requires Inv(m) && c < |m.cpus| && e < NENV && m.cpus[c].pc == Dispatch && m.cpus[c].cur.Some?
    requires op.SysIpcTrySend?
    ensures MessageStep(m, Event(c, Handle(op)), Handled(m, c, op), e)
  {
    InvTyped(m);
    hide Inv, Envid2Env;
  }

  lemma RecvOp(m: Machine, c: nat, op: Op, e: nat)
    requires Inv(m) && c < |m.cpus| && e < NENV && m.cpus[c].pc == Dispatch && m.cpus[c].cur.Some?
    requires op.SysIpcRecv?
    ensures MessageStep(m, Event(c, Handle(op)), Handled(m, c, op), e)
  {
    if m.cpus[c].cur == Some(e) { ReceiverWasRunning(m, c, e); }
    InvTyped(m);
    hide Inv;
  }

  lemma EnvOps(m: Machine, c: nat, op: Op, e: nat)
    requires Inv(m) && c < |m.cpus| && e < NENV && m.cpus[c].pc == Dispatch && m.cpus[c].cur.Some?
    requires op.SysExofork? || op.SysEnvSetStatus? || op.SysEnvDestroy?
    ensures MessageStep(m, Event(c, Handle(op)), Handled(m, c, op), e)
  {
    InvTyped(m);
    hide Inv, Envid2Env, NextId, IpcRecv, IpcTrySend;
  }

  lemma HandledMessage(m: Machine, c: nat, op: Op, e: nat)
    requires Inv(m) && c < |m.cpus| && e < NENV && m.cpus[c].pc == Dispatch && m.cpus[c].cur.Some?
    ensures MessageStep(m, Event(c, Handle(op)), Handled(m, c, op), e)
  {
    InvTyped(m);
    if op.SysIpcTrySend? {
      SendOp(m, c, op, e);
    } else if op.SysIpcRecv? {
      RecvOp(m, c, op, e);
    } else if op.SysExofork? || op.SysEnvSetStatus? || op.SysEnvDestroy? {
      EnvOps(m, c, op, e);
    } else {
      hide Inv, Exofork, EnvSetStatus, IpcRecv, IpcTrySend;
    }
  }

  lemma InvTyped(m: Machine)
    requires Inv(m)
    ensures WellTyped(m)
  {
  }

  lemma NotWaiting(m: Machine, e: nat)
    requires Init(m) && e < NENV
    ensures !m.envs[e].recving
  {
  }

  /** Exactly once and in order, at every point of every run: the messages sent to an environment
      are those it has read, followed by the one that waits to be read if there is one; a receive
      is outstanding exactly when one more receive was made than messages sent. */
  lemma {:induction false} DeliveredInOrder(ms: seq<Machine>, evs: seq<Event>, n: nat, e: nat)
    requires IsRun(ms, evs) && n <= |evs| && e < NENV
    ensures WellTyped(ms[n]) && LogInv(ms[n].envs[e], LogAfter(ms, evs, n, e))
    decreases n
  {
    hide Inv, Allowed, Step, Receives, SendsTo, EnvIds.Allocates, Init;
    RunKeepsInv(ms, evs, n);
    InvTyped(ms[n]);
    if n == 0 {
      NotWaiting(ms[0], e);
    } else {
      DeliveredInOrder(ms, evs, n - 1, e);
      RunKeepsInv(ms, evs, n - 1);
      assert Follows(ms[n - 1], evs[n - 1], ms[n]);
      StepMessage(ms[n - 1], evs[n - 1], ms[n], e);
    }
  }

  /** A send succeeds only while a receive is outstanding, and uses it up. */
  lemma SendConsumesReceive(ms: seq<Machine>, evs: seq<Event>, n: nat, e: nat)
    requires IsRun(ms, evs) && n < |evs| && e < NENV && Follows(ms[n], evs[n], ms[n + 1]) && SendsTo(ms[n], evs[n], e)
    requires !EnvIds.Allocates(ms[n], evs[n], e)
    ensures var log, log' := LogAfter(ms, evs, n, e), LogAfter(ms, evs, n + 1, e);
            && log.receives == |log.sent| + 1 && log'.receives == |log'.sent|
            && log'.sent == log.sent + [Sent(ms[n], evs[n])]
  {
    hide Inv, Allowed, Step, EnvIds.Allocates, Init;
    DeliveredInOrder(ms, evs, n, e);
    RunKeepsInv(ms, evs, n);
    StepMessage(ms[n], evs[n], ms[n + 1], e);
  }

  /** Between two successful sends to an environment it made a receive of its own. */
  lemma NoSecondSend(ms: seq<Machine>, evs: seq<Event>, i: nat, j: nat, e: nat)
    requires IsRun(ms, evs) && i < j < |evs| && e < NENV
    requires forall k {:trigger evs[k]} :: i <= k <= j ==>
               Follows(ms[k], evs[k], ms[k + 1]) && !EnvIds.Allocates(ms[k], evs[k], e)
    requires SendsTo(ms[i], evs[i], e) && SendsTo(ms[j], evs[j], e)
    ensures exists k {:trigger evs[k]} :: i < k < j && Follows(ms[k], evs[k], ms[k + 1]) && Receives(ms[k], evs[k], e)
  {
    hide Inv, Allowed, Step, EnvIds.Allocates, Init;
    if forall k {:trigger evs[k]} :: i < k < j ==> !Receives(ms[k], evs[k], e) {
      RunKeepsInv(ms, evs, i);
      StepMessage(ms[i], evs[i], ms[i + 1], e);
      StaysAnswered(ms, evs, i + 1, j, e);
      RunKeepsInv(ms, evs, j);
      StepMessage(ms[j], evs[j], ms[j + 1], e);
      assert false;
    }
  }

  /** Until the next receive nobody can send again, and the message stays as it was sent. */
  lemma {:induction false} StaysAnswered(ms: seq<Machine>, evs: seq<Event>, i: nat, j: nat, e: nat)
    requires IsRun(ms, evs) && i <= j <= |evs| && e < NENV
    requires WellTyped(ms[i]) && !ms[i].envs[e].recving
    requires forall k {:trigger evs[k]} :: i <= k < j ==>
               Follows(ms[k], evs[k], ms[k + 1]) && !EnvIds.Allocates(ms[k], evs[k], e) && !Receives(ms[k], evs[k], e)
    ensures WellTyped(ms[j]) && !ms[j].envs[e].recving && Shown(ms[j].envs[e]) == Shown(ms[i].envs[e])
    ensures forall k {:trigger evs[k]} :: i <= k < j ==> !SendsTo(ms[k], evs[k], e)
    decreases j - i
  {
    hide Inv, Allowed, Step, Receives, SendsTo, EnvIds.Allocates, Init;
    RunKeepsInv(ms, evs, j);
    InvTyped(ms[j]);
    if i < j {
      RunKeepsInv(ms, evs, i);
      assert Follows(ms[i], evs[i], ms[i + 1]);
      StepMessage(ms[i], evs[i], ms[i + 1], e);
      StaysAnswered(ms, evs, i + 1, j, e);
    }
  }

  // ---- lib/ipc.c ----

  datatype Outcome = Delivered | Panicked(error: int) | Retrying

  ghost predicate Addressed(views: seq<Machine>, me: nat) {
    me < NENV && forall k :: 0 <= k < |views| ==> |views[k].envs| == NENV
  }

  /** The receiver that the id names does not wait. */
  ghost predicate Refused(m: Machine, me: nat, envid: int)
    requires |m.envs| == NENV && me < NENV
  {
    var to := M.Envid2Env(m.envs, me, envid, false);
    to.Some? && !m.envs[to.value].recving
  }

  /** The receiver that the id names waits, and the call has left it this message. */
  ghost predicate Taken(m: Machine, me: nat, envid: int, value: Uint32, page: PageSend)
    requires |m.envs| == NENV && me < NENV
  {
    var to := M.Envid2Env(m.envs, me, envid, false);
    && to.Some? && m.envs[to.value].recving
    && var t := IpcTrySend(m, me, envid, value, page).1;
       && !t.envs[to.value].recving && t.envs[to.value].status == Runnable
       && Shown(t.envs[to.value]) == Message(m.envs[me].id, value)
  }

  /** ipc_send by `me`; `views` are the machines in which its system calls will be made, one after
      the other, and `pages` what becomes of the page it offers.  It tries again, after a yield,
      exactly while the receiver does not wait.  The one call that finds it waiting is the last,
      and hands over the message. */
  method IpcSend(views: seq<Machine>, pages: seq<PageSend>, me: nat, envid: int, value: Uint32)
    returns (calls: nat, yieldings: nat, outcome: Outcome)
    requires Addressed(views, me) && |pages| == |views|
    ensures calls <= |views| && forall k :: 0 <= k < calls - 1 ==> Refused(views[k], me, envid)
    ensures match outcome
            case Delivered =>
              && calls > 0 && yieldings == calls - 1
              && Taken(views[calls - 1], me, envid, value, pages[calls - 1])
            case Panicked(error) =>
              && calls > 0 && !Refused(views[calls - 1], me, envid) && yieldings == calls - 1
              && error == IpcTrySend(views[calls - 1], me, envid, value, pages[calls - 1]).0 < 0
            case Retrying => calls == |views| == yieldings && (calls > 0 ==> Refused(views[calls - 1], me, envid))
  {
    calls, yieldings := 0, 0;
    while calls < |views|
      invariant yieldings == calls <= |views|
      invariant forall k :: 0 <= k < calls ==> Refused(views[k], me, envid)
    {
      var r := IpcTrySend(views[calls], me, envid, value, pages[calls]).0;
      calls := calls + 1;
      if r == 0 {
        return calls, yieldings, Delivered;
      } else if r == -E_IPC_NOT_RECV {
        yieldings := yieldings + 1;
      } else {
        return calls, yieldings, Panicked(r);
      }
    }
    outcome := Retrying;
  }

  /** A send in the machine is the call of ipc_send that takes a waiting receiver. */
  lemma SendIsTaken(m: Machine, ev: Event, e: nat)
    requires WellTyped(m) && ev.c < |m.cpus| && SendsTo(m, ev, e)
    ensures Taken(m, m.cpus[ev.c].cur.value, ev.a.op.envid, ev.a.op.value, ev.a.op.page)
  {
  }

  /** What ipc_recv gives its caller: its return value, an int32_t, and the stores through
      from_env_store and perm_store. */
  datatype Received = Received(value: int, from: int, perm: nat)

  function Returned(r: int, thisenv: Env): Received {
    if r < 0 then Received(r, 0, 0) else Received(Int32(thisenv.value), thisenv.from, thisenv.perm)
  }

  /** ipc_recv once sys_ipc_recv has returned `r`.  From a sender with a positive id, the caller
      can tell failure by the sender stored, and has the message modulo 2^32. */
  method IpcRecvReturn(r: int, thisenv: Env) returns (value: int, from: int, perm: nat)
    ensures Received(value, from, perm) == Returned(r, thisenv)
    ensures thisenv.from > 0 ==> (from == 0 <==> r < 0)
    ensures r >= 0 ==> Message(from, Unsigned(value)) == Shown(thisenv)
  {
    if r < 0 {
      return r, 0, 0;
    }
    Unwrapped(thisenv.value);
    return Int32(thisenv.value), thisenv.from, thisenv.perm;
  }

  function Unsigned(x: int): Uint32 {
    x % 0x1_0000_0000
  }

  lemma Unwrapped(v: Uint32)
    ensures Unsigned(Int32(v)) == v && (Int32(v) < 0 <==> v >= 0x8000_0000)
  {
  }

  /** All messages come from environments with positive ids. */
  lemma {:induction false} SendersPositive(ms: seq<Machine>, evs: seq<Event>, n: nat, e: nat)
    requires IsRun(ms, evs) && n <= |evs| && e < NENV
    ensures forall k :: 0 <= k < |LogAfter(ms, evs, n, e).sent| ==> LogAfter(ms, evs, n, e).sent[k].from > 0
    decreases n
  {
    hide Inv, Allowed, Step, Receives, EnvIds.Allocates, Init;
    if n > 0 {
      SendersPositive(ms, evs, n - 1, e);
      assert Follows(ms[n - 1], evs[n - 1], ms[n]);
      RunKeepsInv(ms, evs, n - 1);
      if SendsTo(ms[n - 1], evs[n - 1], e) {
        SenderPositive(ms[n - 1], evs[n - 1]);
      }
    }
  }

  lemma SenderPositive(m: Machine, ev: Event)
    requires Inv(m) && ev.c < |m.cpus| && ev.a.Handle? && ev.a.op.SysIpcTrySend? && m.cpus[ev.c].cur.Some?
    ensures m.envs[m.cpus[ev.c].cur.value].id > 0
  {
    assert Current(m, ev.c, m.cpus[ev.c].cur.value);
  }

  /** Event: the environment in slot `e` makes a system call. */
  ghost predicate Calls(m: Machine, ev: Event, e: nat) {
    ev.c < |m.cpus| && ev.a.Handle? && m.cpus[ev.c].cur == Some(e)
  }

  /** The receive is refused for its address. */
  predicate Unaligned(dstva: nat) {
    dstva < UTOP && dstva % PGSIZE != 0
  }

  /** The environment in slot `e` called sys_ipc_recv at event `i`, and no other system call up to `n`. */
  ghost predicate LastCall(ms: seq<Machine>, evs: seq<Event>, i: nat, n: nat, e: nat)
    requires IsRun(ms, evs) && i < n <= |evs|
  {
    && Follows(ms[i], evs[i], ms[i + 1]) && Calls(ms[i], evs[i], e) && evs[i].a.op.SysIpcRecv?
    && forall k {:trigger evs[k]} :: i < k < n ==>
         Follows(ms[k], evs[k], ms[k + 1]) && !Calls(ms[k], evs[k], e) && !EnvIds.Allocates(ms[k], evs[k], e)
  }

  /** The send of event `ev` moves a page to the environment in slot `e`. */
  predicate MovesPage(m: Machine, ev: Event, e: nat)
    requires |m.envs| == NENV && e < NENV && ev.a.Handle? && ev.a.op.SysIpcTrySend?
  {
    ev.a.op.page.GoodPage? && m.envs[e].dstva < UTOP
  }

  /** What an event that is neither a call of `e` nor its allocation does to its eax, and to where and
      how it gets a page. */
  lemma EaxStep(m: Machine, ev: Event, m': Machine, e: nat)
    requires WellTyped(m) && Follows(m, ev, m') && e < NENV && !Calls(m, ev, e) && !EnvIds.Allocates(m, ev, e)
    ensures |m'.envs| == NENV && m'.envs[e].eax == if SendsTo(m, ev, e) then 0 else m.envs[e].eax
    ensures m'.envs[e].dstva == m.envs[e].dstva
    ensures m'.envs[e].perm == if SendsTo(m, ev, e) && MovesPage(m, ev, e) then ev.a.op.page.perm else m.envs[e].perm
  {
    hide Scan, Alive, Allowed, Envid2Env, NextId, Handled;
    if ev.a.Handle? { EaxHandled(m, ev.c, ev.a.op, e); }
  }

  lemma EaxHandled(m: Machine, c: nat, op: Op, e: nat)
    requires WellTyped(m) && c < |m.cpus| && m.cpus[c].cur.Some? && e < NENV && m.cpus[c].cur != Some(e)
    requires !EnvIds.Allocates(m, Event(c, Handle(op)), e)
    ensures var t := Handled(m, c, op);
            && |t.envs| == NENV && t.envs[e].eax == (if SendsTo(m, Event(c, Handle(op)), e) then 0 else m.envs[e].eax)
            && t.envs[e].dstva == m.envs[e].dstva
            && t.envs[e].perm == if SendsTo(m, Event(c, Handle(op)), e) && MovesPage(m, Event(c, Handle(op)), e)
                                 then op.page.perm else m.envs[e].perm
  {
    hide Envid2Env, NextId, Result;
  }

  /** The call itself. */
  lemma CallStep(m: Machine, ev: Event, m': Machine, e: nat)
    requires Inv(m) && WellTyped(m) && Follows(m, ev, m') && e < NENV && Calls(m, ev, e) && ev.a.op.SysIpcRecv?
    ensures |m'.envs| == NENV && (Receives(m, ev, e) <==> !Unaligned(ev.a.op.dstva))
    ensures if Unaligned(ev.a.op.dstva) then !m'.envs[e].recving && m'.envs[e].eax == -E_INVAL
            else m'.envs[e].recving && m'.envs[e].dstva == ev.a.op.dstva
  {
    ReceiverWasRunning(m, ev.c, e);
    hide Inv;
  }

  /** What the caller finds while it waits, and when it is back. */
  ghost predicate Found(ms: seq<Machine>, evs: seq<Event>, i: nat, n: nat, e: nat)
    requires IsRun(ms, evs) && i < n <= |evs| && e < NENV && LastCall(ms, evs, i, n, e)
  {
    && |ms[n].envs| == NENV
    && var env := ms[n].envs[e];
       if Unaligned(evs[i].a.op.dstva) then !env.recving && env.eax == -E_INVAL
       else
         && env.dstva == evs[i].a.op.dstva
         && LogAfter(ms, evs, n, e).receives > 0
         && (!env.recving ==> env.eax == 0 && exists j {:trigger evs[j]} :: i < j < n && Answers(ms, evs, j, n, e))
  }

  /** The send at event `j` is what the environment in slot `e` shows in `ms[n]`. */
  ghost predicate Answers(ms: seq<Machine>, evs: seq<Event>, j: nat, n: nat, e: nat)
    requires IsRun(ms, evs) && j < n <= |evs| && e < NENV
  {
    && Follows(ms[j], evs[j], ms[j + 1]) && |ms[n].envs| == NENV
    && SendsTo(ms[j], evs[j], e) && Shown(ms[n].envs[e]) == Sent(ms[j], evs[j])
    && (MovesPage(ms[j], evs[j], e) ==> ms[n].envs[e].perm == evs[j].a.op.page.perm)
  }

  lemma {:induction false} CallerFinds(ms: seq<Machine>, evs: seq<Event>, i: nat, n: nat, e: nat)
    requires IsRun(ms, evs) && i < n <= |evs| && e < NENV && LastCall(ms, evs, i, n, e)
    ensures Found(ms, evs, i, n, e)
    decreases n
  {
    hide Inv, Allowed, Step, Receives, SendsTo, EnvIds.Allocates, Init, Sent;
    var m, ev := ms[n - 1], evs[n - 1];
    RunKeepsInv(ms, evs, n - 1);
    InvTyped(m);
    assert Follows(m, ev, ms[n]);
    StepMessage(m, ev, ms[n], e);
    if n == i + 1 {
      CallStep(m, ev, ms[n], e);
      NotAllocated(m, ev, e);
    } else {
      CallerFinds(ms, evs, i, n - 1, e);
      EaxStep(m, ev, ms[n], e);
      ReceivesIsCall(m, ev, e);
      if SendsTo(m, ev, e) {
        assert Answers(ms, evs, n - 1, n, e);
      } else if !Unaligned(evs[i].a.op.dstva) && !m.envs[e].recving {
        var j: nat :| i < j < n - 1 && Answers(ms, evs, j, n - 1, e);
        assert Answers(ms, evs, j, n, e);
        assert i < j < n && evs[j] == evs[j];
      }
    }
  }

  /** Until the caller makes its next system call, and so while it waits, env_ipc_dstva is the address
      that it gave: there a page sent in answer is mapped. */
  lemma AskedFor(ms: seq<Machine>, evs: seq<Event>, i: nat, n: nat, e: nat)
    requires IsRun(ms, evs) && i < n <= |evs| && e < NENV && LastCall(ms, evs, i, n, e)
    requires !Unaligned(evs[i].a.op.dstva)
    ensures |ms[n].envs| == NENV && ms[n].envs[e].dstva == evs[i].a.op.dstva
  {
    hide Inv, Step, LogAfter, Init, SendsTo, Allowed, EnvIds.Allocates;
    CallerFinds(ms, evs, i, n, e);
  }

  /** One that waits was not refused. */
  lemma Waiting(ms: seq<Machine>, evs: seq<Event>, i: nat, e: nat)
    requires IsRun(ms, evs) && i < |evs| && e < NENV && LastCall(ms, evs, i, |evs|, e)
    requires |ms[|evs|].envs| == NENV && ms[|evs|].envs[e].recving
    ensures ms[|evs|].envs[e].dstva == evs[i].a.op.dstva
  {
    hide Inv, Step, LogAfter, Init, SendsTo, Allowed, EnvIds.Allocates;
    CallerFinds(ms, evs, i, |evs|, e);
  }

  lemma NotAllocated(m: Machine, ev: Event, e: nat)
    requires WellTyped(m) && ev.c < |m.cpus| && ev.a.Handle? && ev.a.op.SysIpcRecv?
    ensures !EnvIds.Allocates(m, ev, e)
  {
  }

  lemma ReceivesIsCall(m: Machine, ev: Event, e: nat)
    requires WellTyped(m) && ev.c < |m.cpus|
    ensures Receives(m, ev, e) ==> Calls(m, ev, e)
  {
  }

  predicate IsLast(message: Message, sent: seq<Message>) {
    sent != [] && sent[|sent| - 1] == message
  }

  /** How a caller of ipc_recv can tell a message from an error, over any run, once its call at event `i`
      has been refused or answered: the sender stored is 0 exactly when it was refused; the sign of
      the return value tells exactly that, unless the value sent is 2^31 or more; and the message is
      that of a send made since the call, the last one there is, as are the permissions of a page that
      was moved with it. */
  lemma RecvOutcome(ms: seq<Machine>, evs: seq<Event>, i: nat, n: nat, e: nat)
    requires IsRun(ms, evs) && i < n <= |evs| && e < NENV && LastCall(ms, evs, i, n, e)
    requires WellTyped(ms[n]) && !ms[n].envs[e].recving
    ensures var refused, got := Unaligned(evs[i].a.op.dstva), Returned(ms[n].envs[e].eax, ms[n].envs[e]);
      && (got.from == 0 <==> refused)
      && (refused ==> got.value == -E_INVAL)
      && ((got.value < 0 <==> refused) <==> refused || ms[n].envs[e].value < 0x8000_0000)
      && (!refused ==>
            && IsLast(Message(got.from, Unsigned(got.value)), LogAfter(ms, evs, n, e).sent)
            && exists j {:trigger evs[j]} :: i < j < n && Answers(ms, evs, j, n, e)
                                            && (MovesPage(ms[j], evs[j], e) ==> got.perm == evs[j].a.op.page.perm))
      && (refused ==> got.perm == 0)
    ensures !Unaligned(evs[i].a.op.dstva) ==> ms[n].envs[e].dstva == evs[i].a.op.dstva
  {
    hide Inv, Step, LogAfter, Init, SendsTo, Allowed, Sent, EnvIds.Allocates;
    CallerFinds(ms, evs, i, n, e);
    DeliveredInOrder(ms, evs, n, e);
    Unwrapped(ms[n].envs[e].value);
    if !Unaligned(evs[i].a.op.dstva) {
      var j: nat :| i < j < n && Answers(ms, evs, j, n, e);
      RunKeepsInv(ms, evs, j);
      SentPositive(ms[j], evs[j], ms[j + 1], e);
      var sent := LogAfter(ms, evs, n, e).sent;
      assert Shown(ms[n].envs[e]) == sent[|sent| - 1];
      assert evs[j] == evs[j];
    }
  }

  lemma SentPositive(m: Machine, ev: Event, m': Machine, e: nat)
    requires Inv(m) && WellTyped(m) && Follows(m, ev, m') && SendsTo(m, ev, e)
    ensures Sent(m, ev).from > 0
  {
    SenderPositive(m, ev);
  }

  /** A message that the sign of ipc_recv's return value alone makes look like an error. */
  lemma LargeValueLooksFailed(thisenv: Env)
    requires thisenv.value == 0x8000_0000
    ensures Returned(0, thisenv).value == -0x8000_0000
  {
  }
}
