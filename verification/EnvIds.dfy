/** Environment ids over whole runs: how long a stale id keeps being rejected. */
module EnvIds {
  import opened Options
  import opened Paging
  import opened Machine

  const GENERATIONS := 0x7_FFFF        // 2^19 - 1

  /** The id of slot `slot` after `n` more allocations of it. */
  ghost function IdAfter(id: int, slot: nat, n: nat): int {
    if n == 0 then id else NextId(IdAfter(id, slot, n - 1), slot)
  }

  function Generation(id: int, slot: nat): int {
    (id - slot) / 0x1000
  }

  /** Generations run from 1 to 2^19 - 1 and start over. */
  lemma {:induction false} IdAfterIs(id: int, slot: nat, n: nat)
    requires ValidId(id, slot)
    ensures ValidId(IdAfter(id, slot, n), slot)
    ensures Generation(IdAfter(id, slot, n), slot) == (Generation(id, slot) - 1 + n) % GENERATIONS + 1
  {
    hide NextId;
    var g := Generation(id, slot) - 1;
    if n == 0 {
      assert 0 <= g < GENERATIONS;
    } else {
      IdAfterIs(id, slot, n - 1);
      var prev := IdAfter(id, slot, n - 1);
      NextIdValid(prev, slot);
      NextGeneration(prev, slot);
      Successor(g + n - 1);
    }
  }

  lemma NextGeneration(id: int, slot: nat)
    requires ValidId(id, slot)
    ensures 1 <= Generation(id, slot) <= GENERATIONS
    ensures Generation(NextId(id, slot), slot) ==
            if Generation(id, slot) == GENERATIONS then 1 else Generation(id, slot) + 1
  {
    hide NextId;
    NextIdValid(id, slot);
  }

  lemma Successor(k: int)
    ensures (k + 1) % GENERATIONS == if k % GENERATIONS == GENERATIONS - 1 then 0 else k % GENERATIONS + 1
  {
    var q, r := k / GENERATIONS, k % GENERATIONS;
    assert k + 1 == q * GENERATIONS + r + 1;
  }

  lemma GenerationIs(id: int, slot: nat)
    requires ValidId(id, slot)
    ensures 1 <= Generation(id, slot) <= GENERATIONS && id == Generation(id, slot) * 0x1000 + slot
  {
  }

  /** A slot reissues an id after 2^19 - 1 allocations, and multiples of that, and never sooner. */
  lemma IdReissuedIff(id: int, slot: nat, n: nat)
    requires ValidId(id, slot)
    ensures IdAfter(id, slot, n) == id <==> n % GENERATIONS == 0
  {
    hide ValidId, IdAfter, Generation;
    IdAfterIs(id, slot, n);
    var id' := IdAfter(id, slot, n);
    GenerationIs(id, slot);
    GenerationIs(id', slot);
    SumModulo(Generation(id, slot) - 1, n);
  }

  lemma SumModulo(g: int, n: nat)
    requires 0 <= g < GENERATIONS
    ensures (g + n) % GENERATIONS == g <==> n % GENERATIONS == 0
  {
    var q, r := n / GENERATIONS, n % GENERATIONS;
    assert g + n == q * GENERATIONS + (g + r);
    if g + r < GENERATIONS {
      assert (g + n) % GENERATIONS == g + r;
    } else {
      assert g + n == (q + 1) * GENERATIONS + (g + r - GENERATIONS);
      assert (g + n) % GENERATIONS == g + r - GENERATIONS;
    }
  }

  /** Live environments have different positive ids, each naming its slot. */
  lemma LiveIdsDistinct(ms: seq<Machine>, evs: seq<Event>, n: nat, e: nat, e': nat)
    requires IsRun(ms, evs) && n < |ms| && e < NENV && e' < NENV
    ensures WellTyped(ms[n])
    ensures var m := ms[n];
            m.envs[e].status != Free ==>
              && m.envs[e].id > 0 && Envx(m.envs[e].id) == e
              && (m.envs[e'].status != Free && e != e' ==> m.envs[e].id != m.envs[e'].id)
  {
    RunKeepsInv(ms, evs, n);
  }

  /** Event `i` allocates slot `e`. */
  ghost predicate Allocates(m: Machine, ev: Event, e: nat)
    requires WellTyped(m) && ev.c < |m.cpus|
  {
    && m.free != [] && m.free[0] == e
    && (ev.a == Create || ev.a == Handle(SysExofork(true)))
  }

  ghost predicate AllocatesAt(ms: seq<Machine>, evs: seq<Event>, i: nat, e: nat)
    requires IsRun(ms, evs) && i < |evs|
  {
    Follows(ms[i], evs[i], ms[i + 1]) && Allocates(ms[i], evs[i], e)
  }

  ghost function Allocations(ms: seq<Machine>, evs: seq<Event>, i: nat, j: nat, e: nat): nat
    requires IsRun(ms, evs) && i <= j <= |evs|
    decreases j
  {
    if i == j then 0 else Allocations(ms, evs, i, j - 1, e) + if AllocatesAt(ms, evs, j - 1, e) then 1 else 0
  }

  /** A slot's id changes by allocation only. */
  lemma StepId(m: Machine, ev: Event, m': Machine, e: nat)
    requires Inv(m) && Follows(m, ev, m') && e < NENV
    ensures WellTyped(m')
    ensures m'.envs[e].id == if Allocates(m, ev, e) then NextId(m.envs[e].id, e) else m.envs[e].id
  {
    hide Scan, Alive, LockInv, Distinct, CurInv, BusyInv, RecvInv, IdInv, Handled, NextId;
    StepKeeps(m, ev.c, ev.a);
    if ev.a.Handle? { HandledId(m, ev.c, ev.a.op, e); }
  }

  lemma HandledId(m: Machine, c: nat, op: Op, e: nat)
    requires WellTyped(m) && c < |m.cpus| && m.cpus[c].cur.Some? && e < NENV
    ensures var t := Handled(m, c, op);
            && |t.envs| == NENV
            && t.envs[e].id == if Allocates(m, Event(c, Handle(op)), e) then NextId(m.envs[e].id, e) else m.envs[e].id
  {
    hide Envid2Env, Result, NextId;
  }

  lemma Typed(m: Machine)
    requires Inv(m)
    ensures WellTyped(m)
  {
  }

  lemma {:induction false} IdAlong(ms: seq<Machine>, evs: seq<Event>, i: nat, j: nat, e: nat)
    requires IsRun(ms, evs) && i <= j <= |evs| && e < NENV
    ensures WellTyped(ms[i]) && WellTyped(ms[j])
    ensures ms[j].envs[e].id == IdAfter(ms[i].envs[e].id, e, Allocations(ms, evs, i, j, e))
    decreases j
  {
    hide Inv, Step, Allowed, Init, Allocates, NextId;
    RunKeepsInv(ms, evs, i);
    RunKeepsInv(ms, evs, j);
    Typed(ms[i]);
    Typed(ms[j]);
    if i < j {
      IdAlong(ms, evs, i, j - 1, e);
      RunKeepsInv(ms, evs, j - 1);
      assert Follows(ms[j - 1], evs[j - 1], ms[j]);
      StepId(ms[j - 1], evs[j - 1], ms[j], e);
    }
  }

  lemma LiveIdIsValid(m: Machine, e: nat)
    requires Inv(m) && e < NENV && m.envs[e].status != Free
    ensures ValidId(m.envs[e].id, e) && Envx(m.envs[e].id) == e
  {
  }

  /** An id that was live is rejected for as long as its slot has been allocated again, up to
      2^19 - 2 times. */
  lemma StaleIdRejected(ms: seq<Machine>, evs: seq<Event>, i: nat, j: nat, e: nat, me: nat, checkperm: bool)
    requires IsRun(ms, evs) && i <= j <= |evs| && e < NENV && me < NENV
    requires WellTyped(ms[i]) && ms[i].envs[e].status != Free
    requires 0 < Allocations(ms, evs, i, j, e) < GENERATIONS
    ensures WellTyped(ms[j]) && Envid2Env(ms[j].envs, me, ms[i].envs[e].id, checkperm) == None
  {
    hide Inv, IdAfter, Allocations, Step, Follows, Init;
    RunKeepsInv(ms, evs, i);
    LiveIdIsValid(ms[i], e);
    IdAlong(ms, evs, i, j, e);
    IdReissuedIff(ms[i].envs[e].id, e, Allocations(ms, evs, i, j, e));
  }
}
