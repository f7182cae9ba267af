/** kern/pmap.c: the physical page allocator, the two-level page tables and the TLB of one CPU,
    updated in place.  The contracts speak of the flat map from (directory, page) to page table
    entry that `Pte` reads off memory, and of the exact reference counts of `Inv`. */
module Pmap {
  import opened Errors
  import opened Options
  import opened Paging
  import opened Refcount
  import opened UserMem

  /** What check_va2pa returns: the physical page number, or None for its ~0. */
  function Va2Pa(mem: seq<Frame>, d: nat, va: nat): Option<nat>
    requires va < VA_LIMIT
  {
    var pte := Pte(mem, d, Pdx(va), Ptx(va));
    if Present(pte) then Some(pte.ppn) else None
  }

  type Tlb = map<(nat, nat), Xlat>

  /** Each cached translation is the one that the directory `root` gives. */
  ghost predicate TlbOk(mem: seq<Frame>, root: nat, tlb: Tlb) {
    forall k :: k in tlb ==> Cacheable(mem, root, k, tlb[k])
  }

  ghost predicate Cacheable(mem: seq<Frame>, root: nat, k: (nat, nat), x: Xlat) {
    k.0 < NENTRIES && k.1 < NENTRIES && Walk(mem, root, k.0, k.1) == Some(x)
  }

  /** `tlb'` comes from `tlb` by evictions and by caching what a walk of `root` finds. */
  ghost predicate Filled(mem: seq<Frame>, root: nat, tlb: Tlb, tlb': Tlb) {
    forall k :: k in tlb' ==> (k in tlb && tlb'[k] == tlb[k]) || Cacheable(mem, root, k, tlb'[k])
  }

  /** Invalidating the one page is enough after its entry was cleared, whatever the processor
      cached in between. */
  lemma TlbAfterClear(vm: Vm, vm': Vm, root: nat, tlb: Tlb, tlb': Tlb, d: nat, i: nat, j: nat)
    requires TlbOk(vm.mem, root, tlb) && IsRoot(vm, root) && LeafSet(vm, vm', d, i, j, ZERO)
    requires Filled(vm'.mem, root, tlb, tlb')
    ensures TlbOk(vm'.mem, root, tlb' - {(i, j)})
    ensures root != d ==> TlbOk(vm'.mem, root, tlb')
  {
  }

  lemma TlbAfterFills(mem: seq<Frame>, root: nat, tlb: Tlb, tlb': Tlb)
    requires TlbOk(mem, root, tlb) && Filled(mem, root, tlb, tlb')
    ensures TlbOk(mem, root, tlb')
  {
  }

  lemma TlbAfterSet(vm: Vm, vm': Vm, root: nat, tlb: Tlb, d: nat, i: nat, j: nat, w: Word)
    requires TlbOk(vm.mem, root, tlb) && IsRoot(vm, root) && LeafSet(vm, vm', d, i, j, w)
    requires Pte(vm.mem, d, i, j) == ZERO
    ensures TlbOk(vm'.mem, root, tlb)
  {
    forall k | k in tlb ensures Cacheable(vm'.mem, root, k, tlb[k]) {
      assert Cacheable(vm.mem, root, k, tlb[k]);
    }
  }

  lemma TlbAfterTables(vm: Vm, vm': Vm, root: nat, tlb: Tlb, d: nat, i: nat)
    requires TlbOk(vm.mem, root, tlb) && IsRoot(vm, root) && TablesKept(vm, vm', d, i)
    ensures TlbOk(vm'.mem, root, tlb)
  {
    forall k | k in tlb ensures Cacheable(vm'.mem, root, k, tlb[k]) {
      assert Cacheable(vm.mem, root, k, tlb[k]);
    }
  }

  lemma TlbAfterAlloc(vm: Vm, vm': Vm, root: nat, tlb: Tlb)
    requires TlbOk(vm.mem, root, tlb) && IsRoot(vm, root) && SameTranslations(vm, vm')
    ensures TlbOk(vm'.mem, root, tlb)
  {
    forall k | k in tlb ensures Cacheable(vm'.mem, root, k, tlb[k]) {
      assert Cacheable(vm.mem, root, k, tlb[k]);
    }
  }

  lemma TlbEmpty(mem: seq<Frame>, root: nat)
    ensures TlbOk(mem, root, map[])
  {
  }

  lemma TlbAfterOthers(vm: Vm, vm': Vm, root: nat, tlb: Tlb, d: nat)
    requires TlbOk(vm.mem, root, tlb) && IsRoot(vm, root) && root != d
    requires forall r, m: nat, n: nat ::
               IsRoot(vm, r) && r != d && m < NENTRIES && n < NENTRIES && Walk(vm.mem, r, m, n).Some? ==>
               Walk(vm'.mem, r, m, n) == Walk(vm.mem, r, m, n)
    ensures TlbOk(vm'.mem, root, tlb)
  {
    forall k | k in tlb ensures Cacheable(vm'.mem, root, k, tlb[k]) {
      assert Cacheable(vm.mem, root, k, tlb[k]);
    }
  }

  lemma ByteIs(mem: seq<Frame>, d: nat, a: nat, perm: Flags)
    requires a < VA_LIMIT
    ensures var w := Pte(mem, d, Pdx(a), Ptx(a)); ByteOk(mem, d, a, perm) <==> a < ULIM && Present(w) && Has(w, perm)
  {
  }

  lemma RegionPage(va: nat, size: nat, k: nat, pgs: nat)
    requires va % PGSIZE == 0 && va >= UTOP && va + size <= VA_LIMIT && (va + size <= UVPT || va >= ULIM)
    requires pgs == (size + PGSIZE - 1) / PGSIZE && k < pgs
    ensures va + k * PGSIZE < VA_LIMIT
    ensures USER_PDES <= Pdx(va + k * PGSIZE) < NENTRIES && Pdx(va + k * PGSIZE) != UVPT_PDE
  {
  }

  /** Page 0, the I/O hole with the kernel, and the page at MPENTRY_PADDR. */
  predicate InUse(kernEnd: nat, p: nat) {
    p == 0 || 160 <= p < kernEnd || p == 7
  }

  function Reserved(kernEnd: nat): set<nat>
    requires kernEnd >= 160
  {
    set p | 0 <= p < kernEnd && InUse(kernEnd, p)
  }

  /** A byte of physical memory is in use after page_init exactly if it is in page 0, in the hole for
      devices or in the kernel behind it, or in the page from which the other CPUs boot. */
  lemma ReservedIs(kernEnd: nat, a: nat)
    requires 160 <= kernEnd
    ensures a / PGSIZE in Reserved(kernEnd) <==>
            a < PGSIZE || 0xA_0000 <= a < kernEnd * PGSIZE || 0x7000 <= a < 0x8000
  {
    var p, o := a / PGSIZE, a % PGSIZE;
    assert a == p * PGSIZE + o;
  }

  lemma InitInv(s: Phys, kernEnd: nat)
    requires |s.pages| == |s.vm.mem| <= 0x10_0000 && 160 <= s.vm.kdir < kernEnd <= |s.vm.mem|
    requires s.vm.dirs == {} && s.loose == {}
    requires s.extra == multiset(Reserved(kernEnd))
    requires forall p :: 0 <= p < |s.pages| ==> s.pages[p].refs == if p in Reserved(kernEnd) then 1 else 0
    requires forall p :: 0 <= p < |s.pages| ==> (p in s.fl <==> p !in Reserved(kernEnd))
    requires forall k :: 0 <= k < |s.fl| ==> s.fl[k] < |s.pages|
    requires s.vm.mem[s.vm.kdir] == ZeroFrame()[UVPT_PDE := Word(s.vm.kdir, PTE_U | PTE_P)]
    ensures Inv(s) && Sealed(s.vm)
  {
    var vm := s.vm;
    forall i: nat | i < NENTRIES && i != UVPT_PDE ensures Entry(vm.mem, vm.kdir, i) == ZERO {}
    forall x | IsSlot(vm, x) ensures Target(vm.mem, x) == None {}
    forall p | 0 <= p < |s.pages| ensures Holders(vm, p) == {} { HeldBy(vm, p); }
  }

  /** Page (i, j) is one of the `n` pages from `va` on. */
  ghost predicate InRegion(va: nat, n: nat, i: nat, j: nat) {
    i < NENTRIES && j < NENTRIES && va <= PgAddr(i, j) < va + n * PGSIZE
  }

  /** The physical address is a uint32_t, so its page number wraps at 2^20. */
  function RegionEntry(pa: nat, perm: Flags, k: nat): Word {
    Word((pa / PGSIZE + k) % 0x10_0000, perm | PTE_P)
  }

  /** The first `n` pages from `va` on are mapped to consecutive physical pages; the others keep
      their entries. */
  ghost predicate RegionMapped(vm: Vm, vm': Vm, va: nat, n: nat, pa: nat, perm: Flags) {
    forall i: nat, j: nat :: i < NENTRIES && i != UVPT_PDE && j < NENTRIES ==>
      Pte(vm'.mem, vm.kdir, i, j) ==
      if InRegion(va, n, i, j) then RegionEntry(pa, perm, (PgAddr(i, j) - va) / PGSIZE) else Pte(vm.mem, vm.kdir, i, j)
  }

  lemma RegionStart(vm: Vm, va: nat, pa: nat, perm: Flags)
    ensures RegionMapped(vm, vm, va, 0, pa, perm)
  {
  }

  lemma RegionStep(vm: Vm, vm1: Vm, vm2: Vm, vm3: Vm, va: nat, k: nat, pa: nat, perm: Flags)
    requires va % PGSIZE == 0 && va + k * PGSIZE < VA_LIMIT && vm1.kdir == vm2.kdir == vm.kdir
    requires RegionMapped(vm, vm1, va, k, pa, perm) && TablesKept(vm1, vm2, vm.kdir, Pdx(va + k * PGSIZE))
    requires LeafSet(vm2, vm3, vm.kdir, Pdx(va + k * PGSIZE), Ptx(va + k * PGSIZE), RegionEntry(pa, perm, k))
    ensures RegionMapped(vm, vm3, va, k + 1, pa, perm)
  {
    hide RegionEntry, Pte;
    assert IsRoot(vm1, vm.kdir) && IsRoot(vm2, vm.kdir);
    forall i: nat, j: nat | i < NENTRIES && i != UVPT_PDE && j < NENTRIES
      ensures Pte(vm3.mem, vm.kdir, i, j) ==
              if InRegion(va, k + 1, i, j)
              then RegionEntry(pa, perm, (PgAddr(i, j) - va) / PGSIZE)
              else Pte(vm.mem, vm.kdir, i, j)
    {
      RegionGrows(va, k, i, j);
      assert Pte(vm2.mem, vm.kdir, i, j) == Pte(vm1.mem, vm.kdir, i, j);
    }
  }

  /** What check_va2pa reads for page `k` of a region that starts at `pa`: the physical page that is
      `k` pages on, around the end of the 32-bit addresses; and with which permissions. */
  ghost predicate PageMapped(mem: seq<Frame>, d: nat, at: nat, pa: nat, perm: Flags, k: nat)
    requires at < VA_LIMIT
  {
    && Va2Pa(mem, d, at) == Some(if pa / PGSIZE + k < 0x10_0000 then pa / PGSIZE + k else pa / PGSIZE + k - 0x10_0000)
    && Pte(mem, d, Pdx(at), Ptx(at)).flags == perm | PTE_P
  }

  lemma WithPresent(perm: Flags)
    ensures (perm | PTE_P) & PTE_P == PTE_P
  {
  }

  lemma RegionReads(vm: Vm, vm': Vm, va: nat, size: nat, n: nat, pa: nat, perm: Flags, k: nat)
    requires RegionMapped(vm, vm', va, n, pa, perm) && pa < VA_LIMIT && k < n == (size + PGSIZE - 1) / PGSIZE
    requires va % PGSIZE == 0 && va >= UTOP && va + size <= VA_LIMIT && (va + size <= UVPT || va >= ULIM)
    ensures va + k * PGSIZE < VA_LIMIT && PageMapped(vm'.mem, vm.kdir, va + k * PGSIZE, pa, perm, k)
  {
    hide Pte;
    RegionPage(va, size, k, n);
    var at := va + k * PGSIZE;
    RegionGrows(va, k, Pdx(at), Ptx(at));
    assert InRegion(va, n, Pdx(at), Ptx(at));
    WithPresent(perm);
  }

  /** A region is mapped for user code to read or for the kernel to write, not for user code to write. */
  lemma RegionSealed(vm: Vm, vm': Vm, va: nat, n: nat, pa: nat, perm: Flags)
    requires RegionMapped(vm, vm', va, n, pa, perm) && Sealed(vm) && vm'.kdir == vm.kdir
    requires perm & (PTE_W | PTE_U) != PTE_W | PTE_U
    ensures Sealed(vm')
  {
    hide Pte, InRegion;
    forall k: nat ensures !(Has(RegionEntry(pa, perm, k), PTE_W) && Has(RegionEntry(pa, perm, k), PTE_U)) {
      NotBoth(perm);
    }
  }

  lemma NotBoth(perm: Flags)
    requires perm & (PTE_W | PTE_U) != PTE_W | PTE_U
    ensures !((perm | PTE_P) & PTE_W == PTE_W && (perm | PTE_P) & PTE_U == PTE_U)
  {
  }

  /** The next page of a region is the one whose indices are those of its address. */
  lemma RegionGrows(va: nat, k: nat, i: nat, j: nat)
    requires va % PGSIZE == 0 && va + k * PGSIZE < VA_LIMIT && i < NENTRIES && j < NENTRIES
    ensures var at := va + k * PGSIZE;
            && (i == Pdx(at) && j == Ptx(at) <==> PgAddr(i, j) == at)
            && (va <= PgAddr(i, j) < at + PGSIZE <==> va <= PgAddr(i, j) < at || PgAddr(i, j) == at)
            && (PgAddr(i, j) == at ==> (PgAddr(i, j) - va) / PGSIZE == k)
  {
    var at := va + k * PGSIZE;
    AddressOf(at, i, j);
    NextPage(PgAddr(i, j), at);
  }

  lemma AddressOf(at: nat, i: nat, j: nat)
    requires at % PGSIZE == 0 && at < VA_LIMIT && i < NENTRIES && j < NENTRIES
    ensures i == Pdx(at) && j == Ptx(at) <==> PgAddr(i, j) == at
  {
    var n := at / PGSIZE;
    IndicesOf(n, 0);
    assert at == n * PGSIZE && n == n / NENTRIES * NENTRIES + n % NENTRIES;
  }

  lemma NextPage(a: nat, at: nat)
    requires a % PGSIZE == 0 && at % PGSIZE == 0
    ensures a < at + PGSIZE <==> a < at || a == at
  {
    var n, m := a / PGSIZE, at / PGSIZE;
    assert a == n * PGSIZE && at == m * PGSIZE;
  }

  lemma TlbAfterKernelSet(vm: Vm, vm': Vm, root: nat, tlb: Tlb, i: nat, j: nat, w: Word)
    requires TlbOk(vm.mem, root, tlb) && IsRoot(vm, root) && LeafSet(vm, vm', vm.kdir, i, j, w) && (i, j) !in tlb
    ensures TlbOk(vm'.mem, root, tlb)
  {
    forall k | k in tlb ensures Cacheable(vm'.mem, root, k, tlb[k]) {
      assert Cacheable(vm.mem, root, k, tlb[k]);
    }
  }

  class Memory {
    const pages: array<PageInfo>
    const mem: array<Frame>
    const kdir: nat                    // kern_pgdir
    var freeList: Option<nat>          // page_free_list
    var panicked: bool
    var cr3: nat
    var cur: Option<nat>               // curenv's env_pgdir, None when curenv is NULL
    var tlb: Tlb

    ghost var dirs: set<nat>           // the env_pgdir of every live environment
    ghost var fl: seq<nat>
    ghost var extra: multiset<nat>
    ghost var loose: set<nat>

    ghost function S(): Phys
      reads this, pages, mem
    {
      Phys(pages[..], Vm(mem[..], kdir, dirs), fl, extra, loose)
    }

    ghost predicate Valid()
      reads this, pages, mem
    {
      Inv(S()) && Chain(pages[..], freeList, fl) && Cr3Ok() && TlbOk(mem[..], cr3, tlb)
    }

    ghost function Pt(d: nat, i: nat, j: nat): Word
      reads mem
    {
      Pte(mem[..], d, i, j)
    }

    /** The loaded directory is the current environment's, or the kernel's own. */
    ghost predicate Cr3Ok()
      reads this
    {
      cr3 == kdir || (cr3 in dirs && cur == Some(cr3))
    }

    /** The processor may cache any translation that a walk finds, and evict any, at any time
        (Intel SDM volume 3A, section 4.10.2). */
    method TlbFills()
      modifies this`tlb
      ensures Filled(mem[..], cr3, old(tlb), tlb)
    {
      var steps: nat := *;
      while steps > 0
        invariant Filled(mem[..], cr3, old(tlb), tlb)
      {
        var i: nat, j: nat := *, *;
        if * {
          tlb := tlb - {(i, j)};
        } else if i < NENTRIES && j < NENTRIES && Walk(mem[..], cr3, i, j).Some? {
          tlb := tlb[(i, j) := Walk(mem[..], cr3, i, j).value];
        }
        steps := steps - 1;
      }
    }

    method StoreEntry(p: nat, k: nat, w: Word)
      requires p < mem.Length && k < NENTRIES
      modifies mem
      ensures mem[..] == Store(old(mem[..]), p, k, w)
    {
      mem[p] := mem[p][k := w];
      assert mem[..] == Store(old(mem[..]), p, k, w);
    }

    method StoreInfo(p: nat, info: PageInfo)
      requires p < pages.Length
      modifies pages
      ensures pages[..] == old(pages[..])[p := info]
    {
      pages[p] := info;
      assert pages[..] == old(pages[..])[p := info];
    }

    method PageAlloc(zero: bool) returns (r: Option<nat>)
      requires Valid()
      modifies this`freeList, this`fl, this`loose, pages, mem
      ensures Valid()
      ensures old(fl) == [] ==> r == None && S() == old(S()) && freeList == old(freeList)
      ensures old(fl) != [] ==> r == Some(old(fl)[0]) && r.value < pages.Length && S() == Popped(old(S()), zero)
    {
      hide Separated, WellFormed, Exact, FreeIffUnused, OnlySlotted, Walk, TlbOk, SameTranslations;
      r := freeList;
      if r == None { return; }
      var p := r.value;
      PoppedChain(pages[..], freeList, fl);
      PoppedInv(S(), zero);
      TlbAfterAlloc(S().vm, Popped(S(), zero).vm, cr3, tlb);
      freeList := pages[p].link;
      StoreInfo(p, PageInfo(None, pages[p].refs));
      if zero {
        mem[p] := ZeroFrame();
        assert mem[..] == old(mem[..])[p := ZeroFrame()];
      }
      fl, loose := fl[1..], loose + {p};
    }

    /** panic() leaves everything else as it is. */
    method PageFree(p: nat)
      requires p < pages.Length
      modifies this`freeList, this`panicked, this`fl, pages
      ensures panicked == (old(panicked) || old(pages[p]) != PageInfo(None, 0))
      ensures old(pages[p]) == PageInfo(None, 0) ==>
                && freeList == Some(p) && fl == [p] + old(fl)
                && pages[..] == old(pages[..])[p := PageInfo(old(freeList), 0)]
      ensures old(pages[p]) != PageInfo(None, 0) ==>
                freeList == old(freeList) && fl == old(fl) && pages[..] == old(pages[..])
    {
      if pages[p].refs != 0 || pages[p].link != None {
        panicked := true;
        return;
      }
      StoreInfo(p, PageInfo(freeList, 0));
      freeList := Some(p);
      fl := [p] + fl;
    }

    /** Dropping a reference never panics: a page with a reference is on no list. */
    method PageDecref(p: nat)
      requires p < pages.Length && Chain(pages[..], freeList, fl) && pages[p].refs >= 1 && p !in fl
      modifies this`freeList, this`panicked, this`fl, pages
      ensures panicked == old(panicked)
      ensures Chain(pages[..], freeList, fl)
      ensures fl == (if old(pages[p].refs) == 1 then [p] + old(fl) else old(fl))
      ensures pages[..] == old(pages[..])[p := if old(pages[p].refs) == 1 then PageInfo(old(freeList), 0)
                                               else PageInfo(old(pages[p].link), old(pages[p].refs) - 1)]
    {
      StoreInfo(p, PageInfo(pages[p].link, pages[p].refs - 1));
      if pages[p].refs == 0 {
        PageFree(p);
        assert pages[..] == old(pages[..])[p := PageInfo(old(freeList), 0)];
        PushedChain(old(pages[..]), old(freeList), old(fl), p);
      } else {
        RecountedChain(old(pages[..]), freeList, fl, p, pages[p].refs);
      }
    }

    ghost predicate Root(d: nat)
      reads this
    {
      d == kdir || d in dirs
    }

    /** The entry (r, k) is reached by a pointer into page `t`. */
    method PgdirWalk(d: nat, va: nat, create: bool) returns (r: Option<(nat, nat)>)
      requires Valid() && Root(d) && va < VA_LIMIT
      requires create ==> Owns(S().vm, d, Pdx(va))
      modifies this`freeList, this`fl, this`loose, this`extra, pages, mem
      ensures Valid()
      ensures loose == old(loose) && extra == old(extra)
      ensures r == None <==> !Present(old(Entry(mem[..], d, Pdx(va)))) && (!create || old(fl) == [])
      ensures r == None || !create || Present(old(Entry(mem[..], d, Pdx(va)))) ==>
                S() == old(S()) && freeList == old(freeList)
      ensures r.Some? ==> Present(Entry(mem[..], d, Pdx(va))) && r.value == (Entry(mem[..], d, Pdx(va)).ppn, Ptx(va))
      ensures TablesKept(old(S().vm), S().vm, d, Pdx(va)) && NoNewRoles(old(S()), S()) && DataKept(old(S()), S())
      ensures fl == old(fl) || (old(fl) != [] && fl == old(fl)[1..])
    {
      hide Store, Walk, TlbOk, Filled, Separated, WellFormed, Exact, FreeIffUnused, OnlySlotted, Linked, Structural,
        DataKept;
      var i := Pdx(va);
      ghost var s0 := S();
      DataKeptSame(s0);
      RootEntry(s0.vm, d, i);
      if !Present(mem[d][i]) {
        if !create { return None; }
        assert mem[d][i] == ZERO;
        var pp := PageAlloc(true);
        if pp == None { return None; }
        var t := pp.value;
        WithTableInv(s0, d, i);
        WithTableData(s0, d, i);
        TlbAfterTables(s0.vm, WithTable(s0, d, i).vm, cr3, tlb, d, i);
        RecountedChain(pages[..], freeList, fl, t, pages[t].refs + 1);
        StoreInfo(t, PageInfo(pages[t].link, pages[t].refs + 1));
        StoreEntry(d, i, Word(t, USER_PDE));
        loose := loose - {t};
        assert S() == WithTable(s0, d, i);
        StoreReads(s0.vm.mem[t := ZeroFrame()], d, i, Word(t, USER_PDE));
      }
      assert mem[d][i] == Entry(mem[..], d, i);
      r := Some((mem[d][i].ppn, Ptx(va)));
    }

    ghost predicate UserVa(d: nat, va: nat)
      reads this
    {
      d in dirs && va < UTOP
    }

    /** `!(*pte) & PTE_P` is 1 exactly when the word is zero.  As every user entry is zero or
        present, that is the same as the entry not being present. */
    method PageLookup(d: nat, va: nat) returns (pp: Option<nat>, at: (nat, nat))
      requires Valid() && UserVa(d, va)
      modifies this`freeList, this`fl, this`loose, this`extra, pages, mem
      ensures Valid() && S() == old(S()) && freeList == old(freeList)
      ensures pp == Va2Pa(mem[..], d, va)
      ensures pp.Some? ==>
                at == (Entry(mem[..], d, Pdx(va)).ppn, Ptx(va)) && at.0 < mem.Length && pp.value < pages.Length
    {
      hide Store, Walk, TlbOk, Filled, Separated, WellFormed, Exact, FreeIffUnused, OnlySlotted, Chain;
      at := (0, 0);
      var pte := PgdirWalk(d, va, false);
      if pte == None { return None, at; }
      at := pte.value;
      LeafFacts(S(), d, Pdx(va), Ptx(va));
      if mem[at.0][at.1] == ZERO { return None, at; }
      pp := Some(mem[at.0][at.1].ppn);
    }

    method TlbInvalidate(d: nat, va: nat)
      requires va < VA_LIMIT
      modifies this`tlb
      ensures tlb == if cur == None || cur == Some(d) then old(tlb) - {(Pdx(va), Ptx(va))} else old(tlb)
    {
      if cur == None || cur == Some(d) {
        tlb := tlb - {(Pdx(va), Ptx(va))};
      }
    }

    method PageRemove(d: nat, va: nat)
      requires Valid() && UserVa(d, va)
      modifies this`freeList, this`panicked, this`tlb, this`fl, this`loose, this`extra, pages, mem
      ensures Valid() && panicked == old(panicked)
      ensures loose == old(loose) && extra == old(extra)
      ensures LeafSet(old(S().vm), S().vm, d, Pdx(va), Ptx(va), ZERO) && DataSame(old(S().vm), S().vm)
      ensures Removed(old(S()), S(), d, Pdx(va), Ptx(va))
    {
      hide Inv, Store, Chain, Walk, TlbOk, Filled, LeafSet, DataSame, DataKept, Dropped;
      ghost var s0, i, j := S(), Pdx(va), Ptx(va);
      DataKeptSame(s0);
      var pp, at := PageLookup(d, va);
      LeafFacts(s0, d, i, j);
      if pp == None {
        LeafSetSame(s0.vm, d, i, j);
        return;
      }
      WithoutLeafInv(s0, d, i, j);
      TableData(s0, WithoutLeaf(s0, d, i, j).vm, d, i, j, ZERO);
      ChainHead(pages[..], freeList, fl);
      PageDecref(pp.value);
      DroppedIs(s0, pp.value);
      StoreEntry(at.0, at.1, ZERO);
      assert S() == WithoutLeaf(s0, d, i, j);
      TlbFills();
      TlbAfterClear(s0.vm, S().vm, cr3, old(tlb), tlb, d, i, j);
      TlbInvalidate(d, va);
    }

    method WidenEntry(d: nat, i: nat, perm: Flags)
      requires d < mem.Length && i < NENTRIES
      modifies mem
      ensures S() == Widened(old(S()), d, i, perm)
    {
      hide Store;
      StoreEntry(d, i, Word(mem[d][i].ppn, mem[d][i].flags | perm));
    }

    method EnterLeaf(t: nat, j: nat, w: Word)
      requires t < mem.Length && j < NENTRIES
      modifies mem, this`extra
      ensures S() == Phys(old(pages[..]), Vm(Store(old(mem[..]), t, j, w), kdir, dirs),
                          fl, old(extra) - multiset{w.ppn}, loose)
    {
      hide Store;
      StoreEntry(t, j, w);
      extra := extra - multiset{w.ppn};
    }

    /** The last two stores of page_insert: the page table entry, then the permissions of the
        directory entry. */
    method EnterPage(d: nat, p: nat, va: nat, perm: Flags, at: (nat, nat))
      requires Valid() && UserVa(d, va)
      requires Present(Entry(mem[..], d, Pdx(va))) && at == (Entry(mem[..], d, Pdx(va)).ppn, Ptx(va))
      requires Pt(d, Pdx(va), Ptx(va)) == ZERO
      requires p < pages.Length && p != kdir && !Structural(S().vm, p) && extra[p] >= if p == 0 then 2 else 1
      modifies this`tlb, this`extra, mem
      ensures Valid() && extra == old(extra) - multiset{p}
      ensures FlatSet(old(S().vm), S().vm, d, Pdx(va), Ptx(va), Word(p, perm | PTE_P)) && DataSame(old(S().vm), S().vm)
      ensures OthersKept(old(S().vm), S().vm, d)
    {
      hide Store, Chain, Walk, TlbOk, Filled, LeafSet, TablesKept, FlatSet, Pte, Separated, WellFormed, Exact,
        FreeIffUnused, OnlySlotted, Structural, DataSame, OthersKept;
      var i, j := Pdx(va), Ptx(va);
      ghost var s3 := S();
      LeafFacts(s3, d, i, j);
      RootEntry(s3.vm, d, i);
      var w := Word(p, perm | PTE_P);
      WithLeafInv(s3, d, i, j, w);
      EnteredData(s3, d, i, j, w, perm);
      TlbAfterSet(s3.vm, WithLeaf(s3, d, i, j, w).vm, cr3, tlb, d, i, j, w);
      EnterLeaf(at.0, at.1, w);
      ghost var s4 := S();
      assert s4 == WithLeaf(s3, d, i, j, w);
      LeafSetAt(s3.vm, s4.vm, d, i, j, w);
      WidenedInv(s4, d, i, perm);
      EnteredOthers(s3, d, i, j, w, perm);
      TlbAfterTables(s4.vm, Widened(s4, d, i, perm).vm, cr3, tlb, d, i);
      WidenEntry(d, i, perm);
      FlatSetOf(s3.vm, s4.vm, S().vm, d, i, j, w);
      TlbFills();
      TlbAfterFills(mem[..], cr3, old(tlb), tlb);
    }

    /** Count the new reference first, so that re-inserting a page where it is already mapped
        cannot free it; then clear what was mapped. */
    method CountAndClear(d: nat, p: nat, va: nat, at: (nat, nat))
      requires Valid() && UserVa(d, va)
      requires Present(Entry(mem[..], d, Pdx(va))) && at == (Entry(mem[..], d, Pdx(va)).ppn, Ptx(va))
      requires p < pages.Length && p != kdir && p !in fl && !Structural(S().vm, p)
      modifies this`freeList, this`panicked, this`tlb, this`fl, this`loose, this`extra, pages, mem
      ensures Valid() && panicked == old(panicked) && extra == old(extra) + multiset{p} && loose == old(loose) - {p}
      ensures LeafSet(old(S().vm), S().vm, d, Pdx(va), Ptx(va), ZERO) && DataSame(old(S().vm), S().vm)
    {
      hide Inv, Store, Chain, Walk, TlbOk, Filled, LeafSet, Removed, Structural, DataSame;
      ghost var s1 := S();
      DirInRange(s1, d);
      LeafFacts(s1, d, Pdx(va), Ptx(va));
      TakenInv(s1, p);
      RecountedChain(pages[..], freeList, fl, p, pages[p].refs + 1);
      StoreInfo(p, PageInfo(pages[p].link, pages[p].refs + 1));
      extra, loose := extra + multiset{p}, loose - {p};
      ghost var s2 := S();
      assert s2 == Taken(s1, p) && s2.vm == s1.vm;
      DataKeptSame(s2);
      if Present(mem[at.0][at.1]) {
        PageRemove(d, va);
      } else {
        LeafSetSame(s2.vm, d, Pdx(va), Ptx(va));
      }
    }

    /** page_insert after its walk. */
    method ReplacePage(d: nat, p: nat, va: nat, perm: Flags, at: (nat, nat))
      requires Valid() && UserVa(d, va)
      requires Present(Entry(mem[..], d, Pdx(va))) && at == (Entry(mem[..], d, Pdx(va)).ppn, Ptx(va))
      requires p < pages.Length && p != kdir && p !in fl && !Structural(S().vm, p)
      modifies this`freeList, this`panicked, this`tlb, this`fl, this`loose, this`extra, pages, mem
      ensures Valid() && panicked == old(panicked) && extra == old(extra) && loose == old(loose) - {p}
      ensures FlatSet(old(S().vm), S().vm, d, Pdx(va), Ptx(va), Word(p, perm | PTE_P)) && DataSame(old(S().vm), S().vm)
      ensures OthersKept(old(S().vm), S().vm, d)
    {
      hide Inv, Store, Chain, Walk, TlbOk, Filled, LeafSet, FlatSet, Removed, Structural, DataSame, OthersKept;
      var i, j := Pdx(va), Ptx(va);
      ghost var s1 := S();
      DirInRange(s1, d);
      CountAndClear(d, p, va, at);
      ghost var s3 := S();
      ClearKeepsRoles(s1, s3, d, i, j);
      LeafSetKeepsOthers(s1.vm, s3.vm, d, i, j, ZERO);
      LeafSetAt(s1.vm, s3.vm, d, i, j, ZERO);
      EnterPage(d, p, va, perm, at);
      FlatSetAfter(s1.vm, s3.vm, S().vm, d, i, j, Word(p, perm | PTE_P));
      DataSameTrans(s1.vm, s3.vm, S().vm);
      OthersKeptTrans(s1.vm, s3.vm, S().vm, d);
      assert extra == s1.extra + multiset{p} - multiset{p};
    }

    method PageInsert(d: nat, p: nat, va: nat, perm: Flags) returns (r: int)
      requires Valid() && UserVa(d, va)
      requires p < pages.Length && p != kdir && p !in fl && !Structural(S().vm, p) && pages[p].refs < MAX_REFS
      modifies this`freeList, this`panicked, this`tlb, this`fl, this`loose, this`extra, pages, mem
      ensures Valid() && panicked == old(panicked)
      ensures extra == old(extra)
      ensures r == 0 || r == -E_NO_MEM
      ensures r == -E_NO_MEM <==> !Present(old(Entry(mem[..], d, Pdx(va)))) && old(fl) == []
      ensures r == -E_NO_MEM ==> S() == old(S())
      ensures r == 0 ==> loose == old(loose) - {p}
      ensures r == 0 ==>
                FlatSet(old(S().vm), S().vm, d, Pdx(va), Ptx(va), Word(p, perm | PTE_P)) && DataKept(old(S()), S())
      ensures OthersKept(old(S().vm), S().vm, d)
    {
      hide Store, Chain, Walk, TlbOk, Filled, TablesKept, FlatSet, NoNewRoles, Separated, WellFormed, Exact,
        FreeIffUnused, OnlySlotted, Structural, DataSame, DataKept, OthersKept;
      ghost var s0 := S();
      LeafFacts(s0, d, Pdx(va), Ptx(va));
      RootEntry(s0.vm, d, Pdx(va));
      var pte := PgdirWalk(d, va, true);
      ghost var s1 := S();
      TablesKeptOthers(s0, s1.vm, d, Pdx(va));
      if pte == None { return -E_NO_MEM; }
      NoRole(s0, s1, p);
      TlbFills();
      TlbAfterFills(mem[..], cr3, old(tlb), tlb);
      ReplacePage(d, p, va, perm, pte.value);
      FlatSetSince(s0.vm, s1.vm, S().vm, d, Pdx(va), Ptx(va), Word(p, perm | PTE_P));
      DataKeptThen(s0, s1, S());
      OthersKeptTrans(s0.vm, s1.vm, S().vm, d);
      return 0;
    }

    // ---- kern/env.c: address spaces set up and torn down ----

    method Lcr3(root: nat)
      modifies this`cr3, this`tlb
      ensures cr3 == root && tlb == map[]
    {
      cr3, tlb := root, map[];
    }

    /** env_setup_vm */
    method EnvSetupVm() returns (r: int, d: nat)
      requires Valid()
      modifies this`freeList, this`fl, this`loose, this`extra, this`dirs, pages, mem
      ensures Valid() && extra == old(extra) && loose == old(loose)
      ensures r == if old(fl) == [] then -E_NO_MEM else 0
      ensures r != 0 ==> S() == old(S())
      ensures r == 0 ==> old(fl) != [] && d == old(fl)[0] && d !in old(dirs) && dirs == old(dirs) + {d}
      ensures r == 0 ==> OthersKept(old(S().vm), S().vm, d) && DataKept(old(S()), S())
      ensures r == 0 ==> forall i: nat, j: nat :: i < USER_PDES && j < NENTRIES ==> Pt(d, i, j) == ZERO
    {
      hide Store, Walk, TlbOk, Filled, Separated, WellFormed, Exact, FreeIffUnused, OnlySlotted, Linked, Structural,
        OthersKept, SameTranslations;
      ghost var s0 := S();
      d := 0;
      var p := PageAlloc(true);
      if p == None { return -E_NO_MEM, d; }
      d := p.value;
      PoppedInv(s0, true);
      ghost var s1 := S();
      WithRootInv(s1, d);
      TlbAfterOthers(s1.vm, WithRoot(s1, d).vm, cr3, tlb, d);
      RecountedChain(pages[..], freeList, fl, d, pages[d].refs + 1);
      StoreInfo(d, PageInfo(pages[d].link, pages[d].refs + 1));
      mem[d] := RootFrame(mem[kdir], d);
      dirs, loose := dirs + {d}, loose - {d};
      assert S() == WithRoot(s1, d);
      OthersKeptFrom(s0.vm, s1.vm, S().vm, d);
      TwiceWritten(s0, S(), d);
      r := 0;
    }

    /** The inner loop of env_free: unmap everything that the page table at (d, i) maps. */
    method UnmapTable(d: nat, i: nat)
      requires Valid() && d in dirs && i < USER_PDES && Present(Entry(mem[..], d, i))
      modifies this`freeList, this`panicked, this`tlb, this`fl, this`loose, this`extra, pages, mem
      ensures Valid() && panicked == old(panicked) && extra == old(extra) && loose == old(loose)
      ensures forall n: nat :: n < NENTRIES ==> Pt(d, i, n) == ZERO
      ensures forall m: nat :: m < NENTRIES ==> Entry(mem[..], d, m) == old(Entry(mem[..], d, m))
      ensures OthersKept(old(S().vm), S().vm, d) && Quiet(old(S().vm), S().vm)
    {
      hide Walk, TlbOk, Filled, Store, Separated, WellFormed, Exact, FreeIffUnused, OnlySlotted, Chain, OthersKept,
        Removed, Quiet, DataSame;
      ghost var s0 := S();
      OthersKeptSame(s0.vm, d);
      QuietSame(s0.vm);
      var t := mem[d][i].ppn;
      for j := 0 to NENTRIES
        invariant Valid() && panicked == old(panicked) && extra == old(extra) && loose == old(loose)
        invariant forall n: nat :: n < j ==> Pt(d, i, n) == ZERO
        invariant forall m: nat :: m < NENTRIES ==> Entry(mem[..], d, m) == old(Entry(mem[..], d, m))
        invariant OthersKept(s0.vm, S().vm, d) && Quiet(s0.vm, S().vm)
      {
        ghost var s1 := S();
        LeafFacts(s1, d, i, j);
        assert mem[t][j] == Pt(d, i, j);
        assert forall n: nat :: n < j ==> Pte(s1.vm.mem, d, i, n) == Pt(d, i, n);
        if Present(mem[t][j]) {
          PageRemove(d, PgAddr(i, j));
          LeafSetAt(s1.vm, S().vm, d, i, j, ZERO);
          LeafSetKeepsOthers(s1.vm, S().vm, d, i, j, ZERO);
          OthersKeptTrans(s0.vm, s1.vm, S().vm, d);
          QuietClear(s1, S(), d, i, j);
          QuietTrans(s0.vm, s1.vm, S().vm);
        }
      }
    }

    method DropTable(d: nat, i: nat)
      requires Valid() && d in dirs && i < USER_PDES && Present(Entry(mem[..], d, i)) && cr3 != d
      requires forall n: nat :: n < NENTRIES ==> Pt(d, i, n) == ZERO
      modifies this`freeList, this`panicked, this`fl, pages, mem
      ensures Valid() && panicked == old(panicked)
      ensures forall m: nat :: m < NENTRIES ==>
                Entry(mem[..], d, m) == if m == i then ZERO else old(Entry(mem[..], d, m))
      ensures OthersKept(old(S().vm), S().vm, d) && Quiet(old(S().vm), S().vm)
    {
      hide Walk, TlbOk, Filled, Store, Separated, WellFormed, Exact, FreeIffUnused, OnlySlotted, Chain, OthersKept,
        Quiet;
      ghost var s0 := S();
      var t := mem[d][i].ppn;
      assert forall n: nat :: Pte(s0.vm.mem, d, i, n) == Pt(d, i, n);
      WithoutTableInv(s0, d, i);
      QuietTable(s0, WithoutTable(s0, d, i).vm, d, i);
      TlbAfterOthers(s0.vm, WithoutTable(s0, d, i).vm, cr3, tlb, d);
      ChainHead(pages[..], freeList, fl);
      StoreEntry(d, i, ZERO);
      PageDecref(t);
      assert S() == WithoutTable(s0, d, i);
    }

    /** The two nested loops of env_free. */
    method UnmapAll(d: nat)
      requires Valid() && d in dirs && cr3 != d && d != kdir
      modifies this`freeList, this`panicked, this`tlb, this`fl, this`loose, this`extra, pages, mem
      ensures Valid() && panicked == old(panicked) && extra == old(extra) && loose == old(loose)
      ensures forall m: nat :: m < USER_PDES ==> Entry(mem[..], d, m) == ZERO
      ensures OthersKept(old(S().vm), S().vm, d) && Quiet(old(S().vm), S().vm)
    {
      hide Walk, TlbOk, Filled, Store, Separated, WellFormed, Exact, FreeIffUnused, OnlySlotted, Chain, OthersKept,
        Quiet, Pte;
      ghost var s0 := S();
      OthersKeptSame(s0.vm, d);
      QuietSame(s0.vm);
      for i := 0 to USER_PDES
        invariant Valid() && panicked == old(panicked) && extra == old(extra) && loose == old(loose)
        invariant forall m: nat :: m < i ==> Entry(mem[..], d, m) == ZERO
        invariant OthersKept(s0.vm, S().vm, d) && Quiet(s0.vm, S().vm)
      {
        ghost var s1 := S();
        RootEntry(s1.vm, d, i);
        if Present(mem[d][i]) {
          UnmapTable(d, i);
          OthersKeptTrans(s0.vm, s1.vm, S().vm, d);
          QuietTrans(s0.vm, s1.vm, S().vm);
          ghost var s2 := S();
          DropTable(d, i);
          OthersKeptTrans(s0.vm, s2.vm, S().vm, d);
          QuietTrans(s0.vm, s2.vm, S().vm);
        }
      }
    }

    /** env_free: unmap everything below UTOP, free the page tables, free the directory. */
    method EnvFree(d: nat)
      requires Valid() && d in dirs
      modifies this, pages, mem
      ensures Valid() && panicked == old(panicked) && extra == old(extra) && loose == old(loose)
      ensures dirs == old(dirs) - {d}
      ensures cr3 == if old(cur) == Some(d) then kdir else old(cr3)
      ensures cur == if old(cur) == Some(d) then Some(0) else old(cur)
      ensures OthersKept(old(S().vm), S().vm, d) && Quiet(old(S().vm), S().vm)
      ensures forall p :: 0 <= p < pages.Length ==> pages[p].refs == old(pages[p].refs) - |HeldIn(old(S().vm), d, p)|
    {
      hide Inv, Walk, TlbOk, Filled, Store, Chain, OthersKept, Quiet, HeldIn;
      ghost var s0 := S();
      NotKernelDir(s0, d);
      if cur == Some(d) {
        Lcr3(kdir);
        TlbEmpty(mem[..], kdir);
      }
      UnmapAll(d);
      ghost var s3 := S();
      WithoutRootInv(s3, d);
      ChainHead(pages[..], freeList, fl);
      if cur == Some(d) { cur := Some(0); }
      dirs := dirs - {d};
      PageDecref(d);
      assert S() == WithoutRoot(s3, d);
      OthersKeptFrom(s0.vm, s3.vm, S().vm, d);
      QuietRoot(s3.vm, d);
      QuietTrans(s0.vm, s3.vm, S().vm);
      AllTornDown(s0, S(), d);
    }

    // ---- user_mem_check ----

    /** The answer, and on failure the address left in user_mem_check_addr. */
    method UserMemCheck(d: nat, va: nat, len: nat, perm: Flags) returns (r: int, addr: nat)
      requires Valid() && d in dirs && va < VA_LIMIT && len < VA_LIMIT
      modifies this`freeList, this`fl, this`loose, this`extra, pages, mem
      ensures Valid() && S() == old(S())
      ensures r == if PagesOk(mem[..], d, va, len, perm) then 0 else -E_FAULT
      ensures r != 0 ==> va <= addr < VA_LIMIT && !ByteOk(mem[..], d, addr, perm)
      ensures r != 0 ==> forall a :: va <= a < addr ==> ByteOk(mem[..], d, a, perm)
      ensures r != 0 && 0 < len && va + len <= VA_LIMIT - PGSIZE ==> addr < va + len
    {
      hide Separated, WellFormed, Exact, FreeIffUnused, OnlySlotted, Chain, TlbOk, ByteOk, OkUpTo, PagesOk, Entry;
      var i, end := RoundDown(va), End(va, len);
      addr := 0;
      OkAtStart(mem[..], d, va, perm);
      while i < end
        invariant i % PGSIZE == 0 && RoundDown(va) <= i <= VA_LIMIT
        invariant Valid() && S() == old(S())
        invariant OkUpTo(mem[..], d, va, i, perm)
      {
        var pte := PgdirWalk(d, i, false);
        var w := if pte == None then ZERO else Entry(mem[..], pte.value.0, pte.value.1);
        ByteIs(mem[..], d, i, perm);
        if i >= ULIM || pte == None || !Present(w) || !Has(w, perm) {
          FirstBad(mem[..], d, va, len, i, perm);
          return -E_FAULT, if i < va then va else i;
        }
        OkNext(mem[..], d, va, i, perm);
        i := i + PGSIZE;
      }
      OkToEnd(mem[..], d, va, len, i, perm);
      r := 0;
    }

    // ---- boot_map_region ----

    /** Run at boot on kern_pgdir, before any directory copies it, over a region above UTOP that
        leaves the self-map alone and of which nothing has been cached. */
    method BootMapRegion(va: nat, size: nat, pa: nat, perm: Flags)
      requires Valid() && dirs == {} && !panicked
      requires va % PGSIZE == 0 && pa % PGSIZE == 0 && size < VA_LIMIT && pa < VA_LIMIT
      requires va >= UTOP && va + size <= VA_LIMIT && (va + size <= UVPT || va >= ULIM)
      requires forall k :: k in tlb ==> !InRegion(va, (size + PGSIZE - 1) / PGSIZE, k.0, k.1)
      modifies this`freeList, this`panicked, this`fl, this`loose, this`extra, pages, mem
      ensures Valid() && extra == old(extra) && loose == old(loose)
      ensures panicked ==> fl == []
      ensures !panicked ==> RegionMapped(old(S().vm), S().vm, va, (size + PGSIZE - 1) / PGSIZE, pa, perm)
      ensures !panicked ==> forall k: nat :: k < (size + PGSIZE - 1) / PGSIZE ==>
                va + k * PGSIZE < VA_LIMIT && PageMapped(mem[..], kdir, va + k * PGSIZE, pa, perm, k)
      ensures !panicked && old(Sealed(S().vm)) && perm & (PTE_W | PTE_U) != PTE_W | PTE_U ==> Sealed(S().vm)
    {
      hide Separated, WellFormed, Exact, FreeIffUnused, OnlySlotted, Chain, Store, Walk, TlbOk, RegionMapped,
        TablesKept, LeafSet,
        RegionEntry, NoNewRoles, Entry, Sealed, PageMapped;
      var pgs := size / PGSIZE;
      if size % PGSIZE != 0 { pgs := pgs + 1; }
      assert pgs == (size + PGSIZE - 1) / PGSIZE;
      ghost var s0 := S();
      RegionStart(s0.vm, va, pa, perm);
      for k := 0 to pgs
        invariant Valid() && extra == old(extra) && loose == old(loose) && panicked == old(panicked)
        invariant RegionMapped(s0.vm, S().vm, va, k, pa, perm)
      {
        var at := va + k * PGSIZE;
        RegionPage(va, size, k, pgs);
        ghost var s1 := S();
        var pte := PgdirWalk(kdir, at, true);
        if pte == None {
          panicked := true;
          return;
        }
        ghost var s2 := S();
        var i, j := Pdx(at), Ptx(at);
        var w := RegionEntry(pa, perm, k);
        KernelLeafInv(s2, i, j, w);
        RegionGrows(va, k, i, j);
        assert InRegion(va, pgs, i, j);
        TlbAfterKernelSet(s2.vm, KernelLeaf(s2, i, j, w).vm, cr3, tlb, i, j, w);
        StoreEntry(pte.value.0, pte.value.1, w);
        assert S() == KernelLeaf(s2, i, j, w);
        RegionStep(s0.vm, s1.vm, s2.vm, S().vm, va, k, pa, perm);
      }
      forall k: nat | k < pgs
        ensures va + k * PGSIZE < VA_LIMIT && PageMapped(mem[..], kdir, va + k * PGSIZE, pa, perm, k)
      {
        RegionReads(s0.vm, S().vm, va, size, pgs, pa, perm, k);
      }
      if Sealed(s0.vm) && perm & (PTE_W | PTE_U) != PTE_W | PTE_U {
        RegionSealed(s0.vm, S().vm, va, pgs, pa, perm);
      }
    }

    // ---- User code ----

    /** A store by user code through a cached translation.  It reaches a data page: no store by
        user code changes a directory, a page table or a reference count. */
    method UserStore(i: nat, j: nat, k: nat, w: Word)
      requires Valid() && Sealed(S().vm) && k < NENTRIES
      requires (i, j) in tlb && tlb[(i, j)].write && tlb[(i, j)].user
      modifies mem
      ensures Valid() && tlb[(i, j)].ppn < mem.Length
      ensures mem[..] == Store(old(mem[..]), tlb[(i, j)].ppn, k, w)
      ensures SameTranslations(old(S().vm), S().vm)
    {
      hide Separated, WellFormed, Exact, FreeIffUnused, OnlySlotted, Chain, Walk, SameTranslations, Structural;
      ghost var s0 := S();
      var p := tlb[(i, j)].ppn;
      assert Cacheable(mem[..], cr3, (i, j), tlb[(i, j)]);
      UserWritesDataOnly(s0, cr3, i, j);
      StoreDataInv(s0, p, k, w);
      TlbAfterAlloc(s0.vm, Vm(Store(mem[..], p, k, w), kdir, dirs), cr3, tlb);
      StoreEntry(p, k, w);
      assert S() == s0.(vm := Vm(Store(s0.vm.mem, p, k, w), kdir, dirs));
    }

    // ---- page_init ----

    /** Page 0, the hole with the kernel, and page 7 are in use; all other pages are free. */
    method PageInit(kernEnd: nat)
      requires 160 <= kernEnd <= pages.Length && freeList == None && fl == []
      requires forall p :: 0 <= p < pages.Length ==> pages[p] == PageInfo(None, 0)
      modifies this`freeList, this`fl, pages
      ensures Chain(pages[..], freeList, fl)
      ensures forall p :: 0 <= p < pages.Length ==> pages[p].refs == if p in Reserved(kernEnd) then 1 else 0
      ensures forall p :: 0 <= p < pages.Length ==> (p in fl <==> p !in Reserved(kernEnd))
    {
      hide Linked;
      for i := 0 to pages.Length
        invariant Chain(pages[..], freeList, fl)
        invariant forall p :: i <= p < pages.Length ==> pages[p] == PageInfo(None, 0)
        invariant forall p :: 0 <= p < i ==> pages[p].refs == if p in Reserved(kernEnd) then 1 else 0
        invariant forall p :: 0 <= p < pages.Length ==> (p in fl <==> p < i && p !in Reserved(kernEnd))
      {
        if InUse(kernEnd, i) {
          RecountedChain(pages[..], freeList, fl, i, 1);
          StoreInfo(i, PageInfo(None, 1));
        } else {
          PushedChain(pages[..], freeList, fl, i);
          StoreInfo(i, PageInfo(freeList, 0));
          freeList := Some(i);
          fl := [i] + fl;
        }
      }
    }

    /** The state after page_init, with kern_pgdir already allocated among the pages below
        `kernEnd` and holding nothing but its self-map. */
    constructor (npages: nat, kernEnd: nat, kd: nat)
      requires 160 <= kd < kernEnd <= npages <= 0x10_0000
      ensures Valid() && !panicked && kdir == kd && dirs == {} && loose == {} && pages.Length == npages && tlb == map[]
      ensures extra == multiset(Reserved(kernEnd))
      ensures forall p :: 0 <= p < npages ==> (p in fl <==> p !in Reserved(kernEnd))
      ensures Sealed(S().vm)
    {
      pages := new PageInfo[npages](_ => PageInfo(None, 0));
      mem := new Frame[npages](_ => ZeroFrame());
      kdir, cr3, cur, tlb, panicked, freeList := kd, kd, None, map[], false, None;
      dirs, fl, loose, extra := {}, [], {}, multiset(Reserved(kernEnd));
      new;
      hide Linked, Inv, Walk;
      mem[kd] := ZeroFrame()[UVPT_PDE := Word(kd, PTE_U | PTE_P)];
      PageInit(kernEnd);
      ChainInRange(pages[..], freeList, fl);
      InitInv(S(), kernEnd);
    }
  }
}
