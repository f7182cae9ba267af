/** The page handlers of kern/syscall.c, over physical memory and the environments: each does to
    the flat address spaces what its `Call` does, or fails with its error code and changes none. */
module Syscalls {
  import opened Errors
  import opened Options
  import opened Word32
  import opened Paging
  import opened Refcount
  import opened FlatVm
  import opened FlatRefine
  import opened Pmap
  import K = Kernel
  import M = Machine
  import Ipc

  /** Each live environment has a page directory of its own, a free slot has none, and there are no others. */
  ghost predicate Spaces(envs: seq<M.Env>, pgdir: seq<nat>, dirs: set<nat>) {
    && |envs| == |pgdir| == M.NENV
    && (forall e: nat :: e < M.NENV && envs[e].status != M.Free ==> pgdir[e] in dirs)
    && (forall e: nat, e': nat :: e < M.NENV && e' < M.NENV && e != e' ==>
          envs[e].status != M.Free && envs[e'].status != M.Free ==> pgdir[e] != pgdir[e'])
    && (forall e: nat :: e < M.NENV && envs[e].status == M.Free ==> pgdir[e] == 0)
    && (forall d :: d in dirs ==> exists e: nat :: e < M.NENV && envs[e].status != M.Free && pgdir[e] == d)
  }

  function Page(va: nat): nat {
    va / PGSIZE
  }

  /** Write permission is asked for a page mapped without it. */
  predicate ReadOnly(pte: Word, perm: Flags) {
    pte.flags & PTE_W == 0 && perm & PTE_W != 0
  }

  lemma LiveTarget(envs: seq<M.Env>, pgdir: seq<nat>, dirs: set<nat>, me: nat, envid: int, checkperm: bool)
    requires Spaces(envs, pgdir, dirs) && me < M.NENV && envs[me].status != M.Free
    ensures |envs| == |pgdir| == M.NENV
    ensures var e := M.Envid2Env(envs, me, envid, checkperm);
      e.Some? ==> e.value < M.NENV && envs[e.value].status != M.Free && pgdir[e.value] in dirs
  {
  }

  class System {
    const k: K.Kernel
    const m: Memory
    const pgdir: array<nat>          // env_pgdir of each environment
    ghost const kernEnd: nat         // the first page after the kernel and its boot-time arrays
    const cpu: nat                   // the CPU of which `m` has the loaded directory and the TLB

    /** A kernel that has just been booted: no environment, no directory but the kernel's. */
    constructor (k: K.Kernel, m: Memory, pgdir: array<nat>, ghost kernEnd: nat, cpu: nat)
      requires k.Valid() && M.Init(k.View()) && m.Valid() && m.dirs == {} && m.loose == {} && pgdir.Length == M.NENV
      requires kernEnd >= 160 && m.extra == multiset(Reserved(kernEnd)) && Sealed(m.S().vm)
      requires cpu < k.cpus.Length && m.cur == None && forall e :: 0 <= e < M.NENV ==> pgdir[e] == 0
      ensures Valid() && this.k == k && this.m == m && this.pgdir == pgdir && this.kernEnd == kernEnd && this.cpu == cpu
    {
      this.k, this.m, this.pgdir, this.kernEnd, this.cpu := k, m, pgdir, kernEnd, cpu;
    }

    /** env_pgdir of the CPU's curenv. */
    ghost function CurDir(): Option<nat>
      reads this, k, k.cpus, pgdir
    {
      if cpu < k.cpus.Length && k.cpus[cpu].cur.Some? && k.cpus[cpu].cur.value < pgdir.Length
      then Some(pgdir[k.cpus[cpu].cur.value])
      else None
    }

    /** The CPU's curenv, if it has one, is not free: so it is but between env_free and `curenv = NULL`. */
    ghost predicate CurLive()
      reads this, k, k.envs, k.cpus
    {
      cpu < k.cpus.Length && k.cpus[cpu].cur.Some? && k.cpus[cpu].cur.value < k.envs.Length ==>
        k.envs[k.cpus[cpu].cur.value].status != M.Free
    }

    /** Between two handlers no page is in transit: each reference lies in a directory or page table,
        or is the one that page_init gives to a page in use. */
    ghost predicate MemOk()
      reads this, m, m.pages, m.mem
    {
      m.Valid() && m.loose == {} && Sealed(m.S().vm) && kernEnd >= 160 && m.extra == multiset(Reserved(kernEnd))
    }

    ghost predicate Valid()
      reads this, k, k.envs, k.cpus, m, m.pages, m.mem, pgdir
    {
      k.Valid() && MemOk() && Spaces(k.envs[..], pgdir[..], m.dirs) && cpu < k.cpus.Length && m.cur == CurDir()
    }

    /** The caller is not free, and no page has as many references as a uint16_t can count. */
    ghost predicate Ready(me: nat)
      reads this, k, k.envs, k.cpus, m, m.pages, m.mem, pgdir
    {
      && Valid() && me < M.NENV && k.envs[me].status != M.Free
      && forall p :: 0 <= p < m.pages.Length ==> m.pages[p].refs < MAX_REFS
    }

    ghost function Flat(): Flat
      reads m, m.pages, m.mem
    {
      FlatOf(m.S().vm)
    }

    ghost function At(e: nat, va: nat): Loc
      requires e < pgdir.Length
      reads pgdir
    {
      Loc(pgdir[e], Page(va))
    }

    ghost predicate HasTable(d: nat, va: nat)
      requires va < VA_LIMIT
      reads m, m.mem
    {
      Present(Entry(m.mem[..], d, Pdx(va)))
    }

    /** page_free of a page that has been allocated and is mapped nowhere. */
    method GiveBack(p: nat)
      requires m.Valid() && p in m.loose
      modifies m`freeList, m`panicked, m`fl, m`loose, m.pages
      ensures m.Valid() && m.panicked == old(m.panicked)
      ensures p < |old(m.S()).pages| && m.S() == Released(old(m.S()), p)
    {
      hide Inv, Chain, TlbOk, Structural;
      ghost var s := m.S();
      ReleasedInv(s, p);
      ChainHead(m.pages[..], m.freeList, m.fl);
      NotLinked(m.pages[..], m.freeList, m.fl, p);
      PushedChain(m.pages[..], m.freeList, m.fl, p);
      m.PageFree(p);
      m.loose := m.loose - {p};
      assert m.S() == Released(s, p);
    }

    /** page_alloc and page_insert, and page_free where there is no memory for the page table. */
    method MapNew(d: nat, va: nat, perm: Flags) returns (r: int)
      requires MemOk() && d in m.dirs && va < UTOP
      modifies m, m.pages, m.mem
      ensures MemOk() && m.extra == old(m.extra) && m.dirs == old(m.dirs)
      ensures m.cur == old(m.cur) && m.panicked == old(m.panicked)
      ensures r == if |old(m.fl)| == 0 || (|old(m.fl)| == 1 && !old(HasTable(d, va))) then -E_NO_MEM else 0
      ensures r != 0 ==> Flat() == old(Flat())
      ensures r == 0 ==> old(m.fl)[0] < 0x10_0000 && old(m.fl)[0] !in old(Flat()).data
      ensures r == 0 ==> Flat() == Fresh(old(Flat()), Loc(d, Page(va)), old(m.fl)[0], perm)
      ensures OthersKept(old(m.S().vm), m.S().vm, d)
    {
      hide Inv, Sealed, Chain, TlbOk, FlatOf, FlatSet, DataKept, Structural, SameTranslations, OthersKept;
      OthersKeptSame(m.S().vm, d);
      ghost var s0 := m.S();
      var pg := m.PageAlloc(true);
      if pg == None { return -E_NO_MEM; }
      var p := pg.value;
      ghost var s1 := m.S();
      NoRepeats(old(m.pages[..]), old(m.freeList), s0.fl);
      Allocated(s0, d, va);
      r := m.PageInsert(d, p, va, perm);
      PoppedInv(s0, true);
      OthersKeptFrom(s0.vm, s1.vm, m.S().vm, d);
      SealedStays(s0, m.S().vm, d);
      if r != 0 {
        GiveBack(p);
        return r;
      }
      InsertIsFresh(s1, m.S(), d, va, p, perm);
    }

    /** page_insert of the page that is mapped at `sva` in `sd`. */
    method MapOld(sd: nat, sva: nat, pg: nat, d: nat, va: nat, perm: Flags) returns (r: int)
      requires MemOk() && sd in m.dirs && sva < UTOP && d in m.dirs && va < UTOP
      requires Va2Pa(m.mem[..], sd, sva) == Some(pg) && (pg < m.pages.Length ==> m.pages[pg].refs < MAX_REFS)
      modifies m, m.pages, m.mem
      ensures MemOk() && m.extra == old(m.extra) && m.dirs == old(m.dirs)
      ensures m.cur == old(m.cur) && m.panicked == old(m.panicked)
      ensures r == if |old(m.fl)| == 0 && !old(HasTable(d, va)) then -E_NO_MEM else 0
      ensures r != 0 ==> Flat() == old(Flat())
      ensures r == 0 ==> pg < 0x10_0000 && Flat() == Enter(old(Flat()), Loc(d, Page(va)), Word(pg, perm | PTE_P))
      ensures OthersKept(old(m.S().vm), m.S().vm, d)
    {
      hide Inv, Sealed, Chain, TlbOk, FlatOf, FlatSet, DataKept, Structural, SameTranslations, Pte, Entry, OthersKept;
      ghost var s0 := m.S();
      Held(s0, sd, sva, pg);
      r := m.PageInsert(d, pg, va, perm);
      SealedStays(s0, m.S().vm, d);
      if r == 0 {
        StillPresent(pg, perm);
        InsertIsEnter(s0, m.S(), d, va, Word(pg, perm | PTE_P));
      }
    }

    method SysPageAlloc(me: nat, envid: int, va: nat, perm: Flags) returns (r: int)
      requires Ready(me) && va < VA_LIMIT
      modifies m, m.pages, m.mem
      ensures Valid() && m.extra == old(m.extra) && m.panicked == old(m.panicked)
      ensures var e := M.Envid2Env(k.envs[..], me, envid, true);
              r == if e == None then -E_BAD_ENV
                   else if va >= UTOP || va % PGSIZE != 0 || !PermOk(perm) then -E_INVAL
                   else if |old(m.fl)| == 0 || (|old(m.fl)| == 1 && !old(HasTable(pgdir[e.value], va))) then -E_NO_MEM
                   else 0
      ensures r != 0 ==> Flat() == old(Flat())
      ensures r == 0 ==>
                && old(m.fl)[0] < 0x10_0000 && old(m.fl)[0] !in old(Flat()).data
                && var at := At(M.Envid2Env(k.envs[..], me, envid, true).value, va);
                   Flat() == Do(old(Flat()), PageAlloc(at, old(m.fl)[0], perm))
    {
      hide Inv, Sealed, Chain, TlbOk, Spaces, FlatOf;
      LiveTarget(k.envs[..], pgdir[..], m.dirs, me, envid, true);
      var e := k.Envid2Env(me, envid, true);
      if e == None { return -E_BAD_ENV; }
      if va >= UTOP || va % PGSIZE != 0 { return -E_INVAL; }
      if !PermOk(perm) { return -E_INVAL; }
      r := MapNew(pgdir[e.value], va, perm);
    }

    /** The second half of sys_page_map, from page_lookup on. */
    method MapPage(sd: nat, srcva: nat, dd: nat, dstva: nat, perm: Flags) returns (r: int)
      requires MemOk() && sd in m.dirs && dd in m.dirs && srcva < UTOP && dstva < UTOP
      requires forall p :: 0 <= p < m.pages.Length ==> m.pages[p].refs < MAX_REFS
      modifies m, m.pages, m.mem
      ensures MemOk() && m.extra == old(m.extra) && m.dirs == old(m.dirs)
      ensures m.cur == old(m.cur) && m.panicked == old(m.panicked)
      ensures r == if !MapOk(old(Flat()), Loc(sd, Page(srcva)), perm) then -E_INVAL
                   else if |old(m.fl)| == 0 && !old(HasTable(dd, dstva)) then -E_NO_MEM
                   else 0
      ensures Flat() ==
              if r == 0 then Do(old(Flat()), PageMap(Loc(sd, Page(srcva)), Loc(dd, Page(dstva)), perm))
              else old(Flat())
    {
      hide Inv, Sealed, Chain, TlbOk, FlatOf, Enter, PermOk, MapOk, ReadOnly, Do, Pte, Entry, FlatSet, DataKept;
      MapOkIs(Flat(), Loc(sd, Page(srcva)), Loc(dd, Page(dstva)), perm);
      var pg, at := m.PageLookup(sd, srcva);
      Looked(m.S(), sd, srcva);
      if pg == None { return -E_INVAL; }
      Held(m.S(), sd, srcva, pg.value);
      if !PermOk(perm) { return -E_INVAL; }
      PteAt(m.S(), sd, srcva, at, pg.value);
      var pte := m.mem[at.0][at.1];
      if ReadOnly(pte, perm) { return -E_INVAL; }
      r := MapOld(sd, srcva, pg.value, dd, dstva, perm);
    }

    method SysPageMap(me: nat, srcenvid: int, srcva: nat, dstenvid: int, dstva: nat, perm: Flags) returns (r: int)
      requires Ready(me) && srcva < VA_LIMIT && dstva < VA_LIMIT
      modifies m, m.pages, m.mem
      ensures Valid() && m.extra == old(m.extra) && m.panicked == old(m.panicked)
      ensures var se, de := M.Envid2Env(k.envs[..], me, srcenvid, true), M.Envid2Env(k.envs[..], me, dstenvid, true);
              r == if se == None || de == None then -E_BAD_ENV
                   else if srcva >= UTOP || srcva % PGSIZE != 0 || dstva >= UTOP || dstva % PGSIZE != 0 then -E_INVAL
                   else if !MapOk(old(Flat()), At(se.value, srcva), perm) then -E_INVAL
                   else if |old(m.fl)| == 0 && !old(HasTable(pgdir[de.value], dstva)) then -E_NO_MEM
                   else 0
      ensures r != 0 ==> Flat() == old(Flat())
      ensures r == 0 ==>
                var se := M.Envid2Env(k.envs[..], me, srcenvid, true).value;
                var de := M.Envid2Env(k.envs[..], me, dstenvid, true).value;
                Flat() == Do(old(Flat()), PageMap(At(se, srcva), At(de, dstva), perm))
    {
      hide Inv, Sealed, Chain, TlbOk, Spaces, FlatOf, Do, MapOk, M.Envid2Env;
      LiveTarget(k.envs[..], pgdir[..], m.dirs, me, srcenvid, true);
      LiveTarget(k.envs[..], pgdir[..], m.dirs, me, dstenvid, true);
      var se := k.Envid2Env(me, srcenvid, true);
      if se == None { return -E_BAD_ENV; }
      var de := k.Envid2Env(me, dstenvid, true);
      if de == None { return -E_BAD_ENV; }
      if srcva >= UTOP || dstva >= UTOP || srcva % PGSIZE != 0 || dstva % PGSIZE != 0 {
        return -E_INVAL;
      }
      r := MapPage(pgdir[se.value], srcva, pgdir[de.value], dstva, perm);
    }

    method SysPageUnmap(me: nat, envid: int, va: nat) returns (r: int)
      requires Ready(me) && va < VA_LIMIT
      modifies m, m.pages, m.mem
      ensures Valid() && m.extra == old(m.extra) && m.panicked == old(m.panicked)
      ensures var e := M.Envid2Env(k.envs[..], me, envid, true);
              r == if e == None then -E_BAD_ENV else if va >= UTOP || va % PGSIZE != 0 then -E_INVAL else 0
      ensures r != 0 ==> Flat() == old(Flat())
      ensures r == 0 ==> Flat() == Do(old(Flat()), PageUnmap(At(M.Envid2Env(k.envs[..], me, envid, true).value, va)))
    {
      hide Inv, Sealed, Chain, TlbOk, Spaces, FlatOf, LeafSet, FlatSet, DataSame, Removed, Remove;
      LiveTarget(k.envs[..], pgdir[..], m.dirs, me, envid, true);
      var e := k.Envid2Env(me, envid, true);
      if e == None { return -E_BAD_ENV; }
      if va >= UTOP || va % PGSIZE != 0 { return -E_INVAL; }
      ghost var s0 := m.S();
      var d := pgdir[e.value];
      m.PageRemove(d, va);
      NotKernelDir(s0, d);
      SealedKept(s0.vm, m.S().vm, d, Pdx(va), Ptx(va), ZERO);
      LeafSetIsFlatSet(s0.vm, m.S().vm, d, Pdx(va), Ptx(va), ZERO);
      RemoveIsRemove(s0, m.S(), d, va);
      r := 0;
    }

    /** The page part of sys_ipc_try_send, for a page at `srcva` in the sender's directory `sd`. */
    method SendPage(sd: nat, srcva: nat, dd: nat, dstva: nat, perm: Flags) returns (r: int)
      requires MemOk() && sd in m.dirs && dd in m.dirs && srcva < UTOP
      requires forall p :: 0 <= p < m.pages.Length ==> m.pages[p].refs < MAX_REFS
      modifies m, m.pages, m.mem
      ensures MemOk() && m.extra == old(m.extra) && m.dirs == old(m.dirs)
      ensures m.cur == old(m.cur) && m.panicked == old(m.panicked)
      ensures r == if srcva % PGSIZE != 0 || !SendOk(old(Flat()), Loc(sd, Page(srcva)), perm) then -E_INVAL
                   else if dstva < UTOP && |old(m.fl)| == 0 && !old(HasTable(dd, dstva)) then -E_NO_MEM
                   else 0
      ensures Flat() ==
              if r == 0 && dstva < UTOP
              then Do(old(Flat()), PageSend(Loc(sd, Page(srcva)), Loc(dd, Page(dstva)), perm))
              else old(Flat())
    {
      hide Inv, Sealed, Chain, TlbOk, FlatOf, Enter, SendOk, Subset, ReadOnly, Do, Pte, Entry, FlatSet, DataKept;
      SendOkIs(Flat(), Loc(sd, Page(srcva)), Loc(dd, Page(dstva)), perm);
      var pg, at := m.PageLookup(sd, srcva);
      Looked(m.S(), sd, srcva);
      if srcva % PGSIZE != 0 { return -E_INVAL; }
      if pg == None { return -E_INVAL; }
      Held(m.S(), sd, srcva, pg.value);
      PteAt(m.S(), sd, srcva, at, pg.value);
      var pte := m.mem[at.0][at.1];
      if !Subset(pte, perm) { return -E_INVAL; }
      if ReadOnly(pte, perm) { return -E_INVAL; }
      r := 0;
      if dstva < UTOP {
        r := MapOld(sd, srcva, pg.value, dd, dstva, perm);
      }
    }

    /** What the sender offers, as the machine of environments sees it. */
    ghost function Offer(me: nat, e: nat, srcva: nat, perm: Flags): M.PageSend
      requires me < pgdir.Length && e < pgdir.Length && e < k.envs.Length
      reads this, pgdir, k, k.envs, m, m.pages, m.mem
    {
      if srcva >= UTOP then M.NoPage
      else if srcva % PGSIZE != 0 || !SendOk(Flat(), At(me, srcva), perm) then M.BadPage
      else M.GoodPage(PermNumber(perm), k.envs[e].dstva < UTOP ==> |m.fl| > 0 || HasTable(pgdir[e], k.envs[e].dstva))
    }

    /** The page of a send to the environment `e`, which waits, and env_ipc_perm. */
    method PagePart(me: nat, e: nat, srcva: nat, perm: Flags) returns (r: int)
      requires Ready(me) && e < M.NENV && k.envs[e].status != M.Free
      modifies k.envs, m, m.pages, m.mem
      ensures Valid() && m.extra == old(m.extra) && m.panicked == old(m.panicked) && m.dirs == old(m.dirs)
      ensures r != 0 ==> k.envs[..] == old(k.envs[..])
      ensures r == match old(Offer(me, e, srcva, perm))
                   case NoPage => 0
                   case BadPage => -E_INVAL
                   case GoodPage(_, memory) => if old(k.envs[e].dstva) < UTOP && !memory then -E_NO_MEM else 0
      ensures var moved := r == 0 && srcva < UTOP && old(k.envs[e].dstva) < UTOP;
              && k.envs[..] == old(k.envs[..])[e := if moved then old(k.envs[e]).(perm := PermNumber(perm))
                                                    else old(k.envs[e])]
              && Flat() == if moved then Do(old(Flat()), PageSend(At(me, srcva), At(e, old(k.envs[e].dstva)), perm))
                           else old(Flat())
    {
      hide Inv, Sealed, Chain, TlbOk, Spaces, FlatOf, Do, SendOk, PermNumber, CurDir, MemOk;
      LiveDir(k.envs[..], pgdir[..], m.dirs, me);
      LiveDir(k.envs[..], pgdir[..], m.dirs, e);
      r := 0;
      if srcva < UTOP {
        r := SendPage(pgdir[me], srcva, pgdir[e], k.envs[e].dstva, perm);
        if r == 0 && k.envs[e].dstva < UTOP {
          k.SetEnvAt(e, k.envs[e].(perm := PermNumber(perm)));
        }
      }
      SpacesKept(old(k.envs[..]), k.envs[..], pgdir[..], m.dirs);
    }

    /** sys_ipc_try_send.  The source reads the page table entry before it checks that there is
        one; here a page that is not mapped is refused first. */
    method SysIpcTrySend(me: nat, envid: int, value: Uint32, srcva: nat, perm: Flags) returns (r: int)
      requires Ready(me)
      modifies k.envs, m, m.pages, m.mem
      ensures Valid() && m.extra == old(m.extra) && m.panicked == old(m.panicked)
      ensures var to := M.Envid2Env(old(k.envs[..]), me, envid, false);
              var offer := if to == None then M.NoPage else old(Offer(me, to.value, srcva, perm));
              (r, k.View()) == M.IpcTrySend(old(k.View()), me, envid, value, offer)
      ensures var to := M.Envid2Env(old(k.envs[..]), me, envid, false);
              Flat() == if r == 0 && srcva < UTOP && old(k.envs[to.value].dstva) < UTOP
                        then Do(old(Flat()), PageSend(At(me, srcva), At(to.value, old(k.envs[to.value].dstva)), perm))
                        else old(Flat())
    {
      hide Inv, Sealed, Chain, TlbOk, Spaces, FlatOf, Do, SendOk, PermNumber, M.Envid2Env, CurDir, MemOk, HasTable;
      LiveTarget(k.envs[..], pgdir[..], m.dirs, me, envid, false);
      var to := k.Envid2Env(me, envid, false);
      if to == None { return -E_BAD_ENV; }
      var e := to.value;
      if !k.envs[e].recving { return -E_IPC_NOT_RECV; }
      ghost var page := Offer(me, e, srcva, perm);
      r := PagePart(me, e, srcva, perm);
      if r != 0 { return r; }
      k.Deliver(me, e, value);
      assert k.envs[..] == M.IpcTrySend(old(k.View()), me, envid, value, page).1.envs;
      SpacesKept(old(k.envs[..]), k.envs[..], pgdir[..], m.dirs);
    }

    /** A send in answer to a receive, at any point of any run: the page is mapped where the receiver's
        call asked for it, and the receiver is shown its permissions. */
    method SendInAnswer(ghost ms: seq<M.Machine>, ghost evs: seq<M.Event>, ghost i: nat, ghost e: nat,
                        me: nat, envid: int, value: Uint32, srcva: nat, perm: Flags) returns (r: int)
      requires Ready(me) && M.IsRun(ms, evs) && k.View() == ms[|evs|] && i < |evs| && e < M.NENV
      requires Ipc.LastCall(ms, evs, i, |evs|, e) && k.envs[e].recving
      requires M.Envid2Env(k.envs[..], me, envid, false) == Some(e)
      modifies k.envs, m, m.pages, m.mem
      ensures Valid()
      ensures var asked := evs[i].a.op.dstva;
              r == 0 && srcva < UTOP && asked < UTOP ==>
                && Flat() == Do(old(Flat()), PageSend(At(me, srcva), At(e, asked), perm))
                && k.envs[e].perm == perm as int
    {
      hide Inv, Sealed, Chain, TlbOk, Spaces, FlatOf, Do, MemOk, CurDir, SendOk, M.Envid2Env;
      hide M.Inv, M.Step, M.Init, M.Allowed, Ipc.Found;
      Ipc.Waiting(ms, evs, i, e);
      r := SysIpcTrySend(me, envid, value, srcva, perm);
    }

    // ---- The life of an address space ----

    /** env_alloc */
    method EnvAlloc(parent: int) returns (r: int, e: nat)
      requires Valid() && M.IdInv(k.View()) && CurLive()
      modifies k, k.envs, pgdir, m, m.pages, m.mem
      ensures Valid() && CurLive() && m.extra == old(m.extra) && m.panicked == old(m.panicked) && Flat() == old(Flat())
      ensures r == if old(k.free) == [] then -E_NO_FREE_ENV else if old(m.fl) == [] then -E_NO_MEM else 0
      ensures r != 0 ==> k.View() == old(k.View()) && m.S() == old(m.S())
      ensures r == 0 ==> e < M.NENV && e == old(k.free)[0] && k.View() == M.EnvAlloc(old(k.View()), parent)
      ensures r == 0 ==> pgdir[e] !in old(m.dirs) && m.dirs == old(m.dirs) + {pgdir[e]}
      ensures r == 0 ==> OthersKept(old(m.S().vm), m.S().vm, pgdir[e])
    {
      hide Inv, Sealed, Chain, TlbOk, Spaces, FlatOf, OthersKept, DataKept;
      e := 0;
      if k.free == [] { return -E_NO_FREE_ENV, e; }
      e := k.free[0];
      assert k.View().envs[e].status == M.Free by { assert e in k.View().free; }
      ghost var s0 := m.S();
      SpacesSize(k.envs[..], pgdir[..], m.dirs);
      var d: nat;
      r, d := m.EnvSetupVm();
      if r < 0 { return r, e; }
      assert forall i: nat, j: nat :: Pte(m.S().vm.mem, d, i, j) == m.Pt(d, i, j);
      SetupIsEmpty(s0, m.S(), d);
      NotKernelDir(m.S(), d);
      SealedKept(s0.vm, m.S().vm, d, 0, 0, ZERO);
      pgdir[e] := d;
      var x: nat;
      r, x := k.EnvAlloc(parent, true);
      SpacesGrow(old(k.envs[..]), k.envs[..], old(pgdir[..]), pgdir[..], old(m.dirs), e, d);
    }

    /** env_free */
    method EnvFree(e: nat)
      requires Valid() && e < M.NENV && k.envs[e].status != M.Free
      modifies k, k.envs, pgdir, m, m.pages, m.mem
      ensures Valid() && m.extra == old(m.extra) && m.panicked == old(m.panicked)
      ensures k.View() == M.EnvFree(old(k.View()), e)
      ensures old(pgdir[e]) in old(m.dirs) && m.dirs == old(m.dirs) - {old(pgdir[e])}
      ensures Flat() == RemoveAll(old(Flat()), old(pgdir[e])) && OthersKept(old(m.S().vm), m.S().vm, old(pgdir[e]))
      ensures m.cr3 == if old(m.cur) == Some(old(pgdir[e])) then m.kdir else old(m.cr3)
    {
      hide Inv, Sealed, Chain, TlbOk, Spaces, FlatOf, OthersKept, Quiet;
      LiveDir(k.envs[..], pgdir[..], m.dirs, e);
      ghost var s0 := m.S();
      var d := pgdir[e];
      NotPageZero(s0, d);
      OnlyOwner(k.envs[..], pgdir[..], m.dirs, e);
      m.EnvFree(d);
      assert DataSame(s0.vm, m.S().vm) by { QuietData(s0.vm, m.S().vm); }
      FreeIsRemoveAll(s0, m.S(), d);
      SealedStays(s0, m.S().vm, d);
      pgdir[e] := 0;
      k.EnvFree(e);
      SpacesShrink(old(k.envs[..]), k.envs[..], old(pgdir[..]), pgdir[..], old(m.dirs), e);
    }

    /** env_run with its lcr3. */
    method EnvRun(c: nat, e: nat)
      requires Valid() && c < k.cpus.Length && e < M.NENV && k.envs[e].status != M.Free
      modifies k, k.envs, k.cpus, m`cr3, m`cur, m`tlb
      ensures Valid() && k.View() == M.EnvRun(old(k.View()), c, e)
      ensures c == cpu ==> m.cr3 == pgdir[e] && m.cur == Some(pgdir[e]) && m.tlb == map[]
      ensures c != cpu ==> m.cr3 == old(m.cr3) && m.cur == old(m.cur) && m.tlb == old(m.tlb)
    {
      hide Inv, Sealed, Chain, TlbOk, Spaces, Reserved, M.EnvRun;
      LiveDir(k.envs[..], pgdir[..], m.dirs, e);
      RunFacts(k.View(), c, e);
      k.EnvRun(c, e);
      if c == cpu {
        m.cur := Some(pgdir[e]);
        m.Lcr3(pgdir[e]);
        TlbEmpty(m.mem[..], pgdir[e]);
      }
      SpacesKept(old(k.envs[..]), k.envs[..], pgdir[..], m.dirs);
    }

    /** sched_halt with its lcr3. */
    method SchedHalt(c: nat)
      requires Valid() && c < k.cpus.Length
      modifies k, k.cpus, m`cr3, m`cur, m`tlb
      ensures Valid() && k.View() == M.SchedHalt(old(k.View()), c)
      ensures c == cpu && k.cpus[c].pc == M.Idle ==> m.cr3 == m.kdir && m.cur == None && m.tlb == map[]
      ensures c != cpu ==> m.cr3 == old(m.cr3) && m.cur == old(m.cur) && m.tlb == old(m.tlb)
    {
      hide Inv, Sealed, Chain, TlbOk, Spaces, M.Alive;
      k.SchedHalt(c);
      if c == cpu && k.cpus[c].pc == M.Idle {
        m.cur := None;
        m.Lcr3(m.kdir);
        TlbEmpty(m.mem[..], m.kdir);
      }
    }

    /** User code stores through a translation that the processor has cached.  It reaches a data page. */
    method UserStore(i: nat, j: nat, at: nat, w: Word)
      requires Valid() && at < NENTRIES && (i, j) in m.tlb && m.tlb[(i, j)].write && m.tlb[(i, j)].user
      modifies m.mem
      ensures Valid() && SameTranslations(old(m.S().vm), m.S().vm)
      ensures m.tlb[(i, j)].ppn < m.mem.Length && m.mem[..] == Store(old(m.mem[..]), m.tlb[(i, j)].ppn, at, w)
    {
      hide Inv, Sealed, Chain, TlbOk, Spaces;
      ghost var vm := m.S().vm;
      m.UserStore(i, j, at, w);
      SealedTranslations(vm, m.S().vm);
    }

    /** In every state between two handlers the count of a page is the number of directory and page
        table entries that point to it, and one more for a page in use since page_init; a page is
        free exactly when it has neither. */
    lemma Accounted(p: nat)
      requires Valid() && p < m.pages.Length
      ensures m.pages[p].refs == |Holders(m.S().vm, p)| + if p in Reserved(kernEnd) then 1 else 0
      ensures p in m.fl <==> Holders(m.S().vm, p) == {} && p !in Reserved(kernEnd)
    {
      hide Sealed, Chain, TlbOk, Spaces, Separated, WellFormed, OnlySlotted, Holders, Reserved;
    }

    /** One step in the life of the address space `d`. */
    method Apply(d: nat, op: MapOp)
      requires Valid() && d in m.dirs
      modifies m, m.pages, m.mem
      ensures Valid() && m.extra == old(m.extra) && m.dirs == old(m.dirs) && m.panicked == old(m.panicked)
      ensures OthersKept(old(m.S().vm), m.S().vm, d)
    {
      hide Inv, Sealed, Chain, TlbOk, Spaces, FlatOf, OthersKept, LeafSet, Removed, DataSame;
      ghost var s := m.S();
      OthersKeptSame(s.vm, d);
      match op
      case MapFresh(va, perm) =>
        if va < UTOP { var x := MapNew(d, va, perm); }
      case MapShared(src, sva, va, perm) =>
        if va < UTOP && sva < UTOP && src < k.envs.Length && k.envs[src].status != M.Free {
          LiveDir(k.envs[..], pgdir[..], m.dirs, src);
          var pg, at := m.PageLookup(pgdir[src], sva);
          if pg.Some? && m.pages[pg.value].refs < MAX_REFS {
            var x := MapOld(pgdir[src], sva, pg.value, d, va, perm);
          }
        }
      case Unmap(va) =>
        if va < UTOP {
          m.PageRemove(d, va);
          LeafSetKeepsOthers(s.vm, m.S().vm, d, Pdx(va), Ptx(va), ZERO);
          SealedStays(s, m.S().vm, d);
        }
    }

    /** env_alloc, then any maps and unmaps in the new address space, then env_free: the free
        pages are the ones that were free before. */
    method Lifecycle(parent: int, ops: seq<MapOp>) returns (r: int)
      requires Valid() && M.IdInv(k.View()) && CurLive()
      modifies k, k.envs, pgdir, m, m.pages, m.mem
      ensures Valid() && m.extra == old(m.extra) && m.dirs == old(m.dirs) && m.panicked == old(m.panicked)
      ensures r == 0 ==> forall p :: p in m.fl <==> p in old(m.fl)
      ensures r == 0 ==> OthersKeptAll(old(m.S().vm), m.S().vm)
    {
      hide Inv, Sealed, Chain, TlbOk, Spaces, FlatOf, OthersKept;
      ghost var s0 := m.S();
      var e: nat;
      r, e := EnvAlloc(parent);
      if r != 0 { return; }
      SpacesSize(k.envs[..], pgdir[..], m.dirs);
      var d := pgdir[e];
      ghost var s1 := m.S();
      NotKernelDir(s1, d);
      for i := 0 to |ops|
        invariant Valid() && k.envs[e].status != M.Free && pgdir[e] == d
        invariant m.extra == s0.extra && m.panicked == old(m.panicked)
        invariant m.dirs == s1.vm.dirs && OthersKept(s0.vm, m.S().vm, d)
      {
        ghost var s2 := m.S();
        Apply(d, ops[i]);
        OthersKeptJoin(s0.vm, s2.vm, m.S().vm, d);
      }
      ghost var s3 := m.S();
      EnvFree(e);
      OthersKeptJoin(s0.vm, s3.vm, m.S().vm, d);
      assert m.dirs == s0.vm.dirs;
      SameFree(s0, m.S(), d);
    }
  }

  /** What a new environment's address space may be given: a new page, a page that another
      environment has mapped, or nothing any more. */
  datatype MapOp =
    | MapFresh(va: nat, perm: Flags)
    | MapShared(src: nat, sva: nat, va: nat, perm: Flags)
    | Unmap(va: nat)

  /** Every directory keeps every entry and every page. */
  ghost predicate OthersKeptAll(vm: Vm, vm': Vm) {
    forall r, i: nat, j: nat :: IsRoot(vm, r) && i < NENTRIES && j < NENTRIES ==>
      Pte(vm'.mem, r, i, j) == Pte(vm.mem, r, i, j)
  }

  lemma SameFree(s: Phys, t: Phys, d: nat)
    requires Inv(s) && Inv(t) && |t.pages| == |s.pages| && t.extra == s.extra && t.loose == s.loose
    requires t.vm.kdir == s.vm.kdir && t.vm.dirs == s.vm.dirs && d !in s.vm.dirs && d != s.vm.kdir
    requires OthersKept(s.vm, t.vm, d)
    ensures forall p :: p in s.fl <==> p in t.fl
    ensures OthersKeptAll(s.vm, t.vm)
  {
    hide Inv, Pte;
    forall x | IsSlot(s.vm, x)
      ensures Target(t.vm.mem, x) == Target(s.vm.mem, x)
    {
      assert x.d != d;
      SameTargetElsewhere(s.vm, t.vm, d, x);
    }
    forall p ensures p in s.fl <==> p in t.fl {
      FreeSetDetermined(s, t, p);
    }
  }

  lemma QuietData(vm: Vm, vm': Vm)
    requires Quiet(vm, vm')
    ensures DataSame(vm, vm')
  {
  }

  /** Page 0 is in use since page_init. */
  lemma NotPageZero(s: Phys, d: nat)
    requires Inv(s) && d in s.vm.dirs
    ensures d != 0
  {
    hide Separated, WellFormed, Exact, FreeIffUnused;
    assert IsSlot(s.vm, Root(d)) && Target(s.vm.mem, Root(d)) == Some(d);
  }

  /** No other slot, free or not, names the directory of `e`. */
  lemma OnlyOwner(envs: seq<M.Env>, pgdir: seq<nat>, dirs: set<nat>, e: nat)
    requires Spaces(envs, pgdir, dirs) && e < M.NENV && envs[e].status != M.Free && pgdir[e] != 0
    ensures |pgdir| == M.NENV && forall x: nat :: x < M.NENV && pgdir[x] == pgdir[e] ==> x == e
  {
  }

  lemma SealedStays(s: Phys, vm': Vm, d: nat)
    requires Inv(s) && d in s.vm.dirs && Sealed(s.vm) && vm'.kdir == s.vm.kdir && OthersKept(s.vm, vm', d)
    ensures Sealed(vm')
  {
    hide Inv, Sealed, OthersKept;
    NotKernelDir(s, d);
    SealedKept(s.vm, vm', d, 0, 0, ZERO);
  }

  lemma SealedTranslations(vm: Vm, vm': Vm)
    requires Sealed(vm) && vm'.kdir == vm.kdir && SameTranslations(vm, vm')
    ensures Sealed(vm')
  {
    assert IsRoot(vm, vm.kdir);
  }

  lemma SpacesSize(envs: seq<M.Env>, pgdir: seq<nat>, dirs: set<nat>)
    requires Spaces(envs, pgdir, dirs)
    ensures |envs| == |pgdir| == M.NENV
  {
  }

  lemma SpacesGrow(envs: seq<M.Env>, envs': seq<M.Env>, pgdir: seq<nat>, pgdir': seq<nat>, dirs: set<nat>, e: nat,
                   d: nat)
    requires Spaces(envs, pgdir, dirs) && e < M.NENV && envs[e].status == M.Free && d !in dirs
    requires |envs'| == M.NENV && envs' == envs[e := envs'[e]] && envs'[e].status != M.Free && pgdir' == pgdir[e := d]
    ensures Spaces(envs', pgdir', dirs + {d})
  {
    forall x | x in dirs + {d}
      ensures exists i: nat :: i < M.NENV && envs'[i].status != M.Free && pgdir'[i] == x
    {
      if x == d {
        assert envs'[e].status != M.Free && pgdir'[e] == x;
      } else {
        var i: nat :| i < M.NENV && envs[i].status != M.Free && pgdir[i] == x;
        assert envs'[i].status != M.Free && pgdir'[i] == x;
      }
    }
  }

  lemma SpacesShrink(envs: seq<M.Env>, envs': seq<M.Env>, pgdir: seq<nat>, pgdir': seq<nat>, dirs: set<nat>, e: nat)
    requires Spaces(envs, pgdir, dirs) && e < M.NENV && envs[e].status != M.Free
    requires |envs'| == M.NENV && envs' == envs[e := envs'[e]] && envs'[e].status == M.Free && pgdir' == pgdir[e := 0]
    ensures Spaces(envs', pgdir', dirs - {pgdir[e]})
  {
    forall x | x in dirs - {pgdir[e]}
      ensures exists i: nat :: i < M.NENV && envs'[i].status != M.Free && pgdir'[i] == x
    {
      var i: nat :| i < M.NENV && envs[i].status != M.Free && pgdir[i] == x;
      assert envs'[i].status != M.Free && pgdir'[i] == x;
    }
  }

  lemma LiveDir(envs: seq<M.Env>, pgdir: seq<nat>, dirs: set<nat>, e: nat)
    requires Spaces(envs, pgdir, dirs) && e < M.NENV && envs[e].status != M.Free
    ensures |envs| == |pgdir| == M.NENV && pgdir[e] in dirs
  {
  }

  function PermNumber(perm: Flags): nat {
    perm as nat
  }

  /** The low three bits of `perm` are among those of the entry. */
  predicate Subset(pte: Word, perm: Flags) {
    pte.flags & perm & 7 == perm & 7
  }

  lemma SendOkIs(f: Flat, from: Loc, at: Loc, perm: Flags)
    ensures SendOk(f, from, perm) <==> from in f.maps && Subset(f.maps[from], perm) && !ReadOnly(f.maps[from], perm)
    ensures SendOk(f, from, perm) ==>
              Do(f, PageSend(from, at, perm)) == Enter(f, at, Word(f.maps[from].ppn, perm | PTE_P))
  {
    hide Enter;
  }

  lemma RunFacts(m: M.Machine, c: nat, e: nat)
    requires M.WellTyped(m) && c < |m.cpus| && e < M.NENV && m.envs[e].status != M.Free
    ensures var t := M.EnvRun(m, c, e);
            && t.cpus == m.cpus[c := m.cpus[c].(pc := M.User, cur := Some(e))]
            && |t.envs| == M.NENV
            && forall x: nat :: x < M.NENV ==> (t.envs[x].status == M.Free <==> m.envs[x].status == M.Free)
  {
  }

  lemma SpacesKept(envs: seq<M.Env>, envs': seq<M.Env>, pgdir: seq<nat>, dirs: set<nat>)
    requires Spaces(envs, pgdir, dirs) && |envs'| == |envs|
    requires forall e: nat :: e < M.NENV ==> (envs'[e].status == M.Free <==> envs[e].status == M.Free)
    ensures Spaces(envs', pgdir, dirs)
  {
  }

  /** A page is mapped in the flat map exactly when page_lookup finds it. */
  lemma Looked(s: Phys, d: nat, va: nat)
    requires Inv(s) && d in s.vm.dirs && va < UTOP
    ensures Va2Pa(s.vm.mem, d, va).Some? <==> Loc(d, Page(va)) in FlatOf(s.vm).maps
  {
    hide Separated, WellFormed, Exact, OnlySlotted;
    PageIndices(va);
    LeafFacts(s, d, Pdx(va), Ptx(va));
  }

  /** What page_lookup finds can be mapped once more. */
  lemma Held(s: Phys, d: nat, va: nat, p: nat)
    requires Inv(s) && d in s.vm.dirs && va < UTOP && Va2Pa(s.vm.mem, d, va) == Some(p)
    ensures p < |s.pages| == |s.vm.mem| <= 0x10_0000 && p != s.vm.kdir && p !in s.fl && p !in s.loose
    ensures !Structural(s.vm, p)
    ensures var f, l := FlatOf(s.vm), Loc(d, Page(va));
      l in f.maps && f.maps[l] == Pte(s.vm.mem, d, Pdx(va), Ptx(va)) && f.maps[l].ppn == p && p in f.data
  {
    hide Separated, WellFormed, Exact, OnlySlotted;
    PageIndices(va);
    LeafFacts(s, d, Pdx(va), Ptx(va));
    var l := Loc(d, Page(va));
    assert l in FlatOf(s.vm).maps;
    MappedHas(FlatOf(s.vm).maps, l);
    MappedPage(s, l);
    PageCount(s);
  }

  lemma MapOkIs(f: Flat, from: Loc, at: Loc, perm: Flags)
    ensures MapOk(f, from, perm) ==>
              Do(f, PageMap(from, at, perm)) == Enter(f, at, Word(f.maps[from].ppn, perm | PTE_P))
    ensures MapOk(f, from, perm) <==> from in f.maps && PermOk(perm) && !ReadOnly(f.maps[from], perm)
  {
    hide Enter;
  }

  /** The entry that page_lookup points at. */
  lemma PteAt(s: Phys, d: nat, va: nat, at: (nat, nat), p: nat)
    requires va < UTOP && Va2Pa(s.vm.mem, d, va) == Some(p)
    requires at == (Entry(s.vm.mem, d, Pdx(va)).ppn, Ptx(va)) && at.0 < |s.vm.mem|
    ensures s.vm.mem[at.0][at.1] == Pte(s.vm.mem, d, Pdx(va), Ptx(va))
  {
  }

  lemma PageCount(s: Phys)
    requires Inv(s)
    ensures |s.pages| == |s.vm.mem| <= 0x10_0000
  {
  }

  lemma NotLinked(pages: seq<PageInfo>, head: Option<nat>, fl: seq<nat>, p: nat)
    requires Chain(pages, head, fl) && p < |pages| && p !in fl && pages[p].refs == 0
    ensures pages[p] == PageInfo(None, 0)
  {
  }

  lemma NoRepeats(pages: seq<PageInfo>, head: Option<nat>, fl: seq<nat>)
    requires Chain(pages, head, fl)
    ensures forall k, n :: 0 <= k < n < |fl| ==> fl[k] != fl[n]
  {
  }

  /** What page_alloc gives can be mapped, and nothing else changes. */
  lemma Allocated(s0: Phys, d: nat, va: nat)
    requires Inv(s0) && s0.fl != [] && va < UTOP && d in s0.vm.dirs
    requires forall k, n :: 0 <= k < n < |s0.fl| ==> s0.fl[k] != s0.fl[n]
    ensures var p := s0.fl[0]; p < |s0.pages| == |s0.vm.mem| <= 0x10_0000 && p !in FlatOf(s0.vm).data
    ensures var p, s1 := s0.fl[0], Popped(s0, true);
      && Inv(s1) && p in s1.loose && p !in s1.fl && p < |s1.pages| && s1.pages[p].refs == 0
      && p != s1.vm.kdir && !Structural(s1.vm, p)
      && s1.vm.mem[p] == ZeroFrame() && FlatOf(s1.vm) == FlatOf(s0.vm)
      && Entry(s1.vm.mem, d, Pdx(va)) == Entry(s0.vm.mem, d, Pdx(va))
  {
    hide Exact, OnlySlotted, FlatOf, Separated, WellFormed;
    PoppedInv(s0, true);
    var p, s1 := s0.fl[0], Popped(s0, true);
    FreeIsUnreferenced(s1, p);
    AllocKeepsFlat(s0, true);
    assert p in s0.fl;
    UnusedUnmapped(s0, p);
    assert IsRoot(s0.vm, d);
  }
}
