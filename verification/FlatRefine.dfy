/** The flat address spaces that physical memory holds: what directories, page tables, reference
    counts and the free list of kern/pmap.c come to for user programs. */
module FlatRefine {
  import opened Paging
  import opened Refcount
  import opened FlatVm
  import opened UserMem

  const USER_PAGES := USER_PDES * NENTRIES     // PGNUM(UTOP)

  ghost function UserPte(vm: Vm, l: Loc): Word {
    Pte(vm.mem, l.dir, l.v / NENTRIES, l.v % NENTRIES)
  }

  ghost predicate UserLoc(vm: Vm, l: Loc) {
    l.dir in vm.dirs && l.v < USER_PAGES
  }

  ghost function UserLocs(vm: Vm): (r: set<Loc>)
    ensures forall l :: l in r <==> UserLoc(vm, l)
  {
    set d, v | d in vm.dirs && 0 <= v < USER_PAGES :: Loc(d, v)
  }

  ghost function MapsOf(vm: Vm): map<Loc, Word> {
    map l | l in UserLocs(vm) && UserPte(vm, l) != ZERO :: UserPte(vm, l)
  }

  /** The entry of every page below UTOP in every live directory, and the contents of the pages
      that they name. */
  ghost function FlatOf(vm: Vm): Flat {
    Flat(MapsOf(vm), map p | p in Mapped(MapsOf(vm)) && p < |vm.mem| :: vm.mem[p])
  }

  /** What a user page table entry names is a data page in use. */
  lemma MappedPage(s: Phys, l: Loc)
    requires Inv(s) && l in MapsOf(s.vm)
    ensures var p := MapsOf(s.vm)[l].ppn;
            p < |s.pages| == |s.vm.mem| && s.pages[p].refs >= 1 && p !in s.fl && p !in s.loose && !Structural(s.vm, p)
    ensures Present(MapsOf(s.vm)[l])
  {
    hide Separated, WellFormed, Exact, OnlySlotted, Structural;
    LeafFacts(s, l.dir, l.v / NENTRIES, l.v % NENTRIES);
  }

  lemma FlatIsGood(s: Phys)
    requires Inv(s)
    ensures Good(FlatOf(s.vm))
            && forall p :: p in FlatOf(s.vm).data ==> p < |s.vm.mem| && FlatOf(s.vm).data[p] == s.vm.mem[p]
  {
    hide Inv;
    var maps := MapsOf(s.vm);
    forall p | p in Mapped(maps)
      ensures p < |s.vm.mem|
    {
      var l := MappedBy(maps, p);
      MappedPage(s, l);
    }
    forall l | l in maps
      ensures Present(maps[l])
    {
      MappedPage(s, l);
    }
  }

  /** A page that is free, or just allocated, is mapped nowhere. */
  lemma UnusedUnmapped(s: Phys, p: nat)
    requires Inv(s) && (p in s.fl || p in s.loose)
    ensures p !in FlatOf(s.vm).data
  {
    hide Inv;
    if p in Mapped(MapsOf(s.vm)) {
      var l := MappedBy(MapsOf(s.vm), p);
      MappedPage(s, l);
    }
  }

  /** Equal entries, and equal contents of what they name: equal flat maps. */
  lemma FlatEqual(vm: Vm, f: Flat)
    requires Good(f) && forall l :: l in f.maps <==> UserLoc(vm, l) && UserPte(vm, l) != ZERO
    requires forall l :: l in f.maps ==> f.maps[l] == UserPte(vm, l)
    requires forall p :: p in f.data ==> p < |vm.mem| && f.data[p] == vm.mem[p]
    ensures FlatOf(vm) == f
  {
    assert MapsOf(vm) == f.maps;
  }

  /** The indices of a page number are those of the addresses on the page. */
  lemma PageIndices(va: nat)
    requires va < UTOP
    ensures va / PGSIZE < USER_PAGES && va / PGSIZE / NENTRIES == Pdx(va) && va / PGSIZE % NENTRIES == Ptx(va)
    ensures Pdx(va) < USER_PDES
  {
    IndicesOf(va / PGSIZE, va % PGSIZE);
    assert va == va / PGSIZE * PGSIZE + va % PGSIZE;
  }

  lemma OtherIndices(v: nat, u: nat)
    requires v / NENTRIES == u / NENTRIES && v % NENTRIES == u % NENTRIES
    ensures v == u
  {
  }

  /** One entry set, in the two-level tables, is one entry set in the flat map. */
  lemma SetIsSet(vm: Vm, vm': Vm, d: nat, va: nat, w: Word, l: Loc)
    requires va < UTOP && FlatSet(vm, vm', d, Pdx(va), Ptx(va), w) && vm'.dirs == vm.dirs && d in vm.dirs
    requires UserLoc(vm, l)
    ensures UserPte(vm', l) == if l == Loc(d, va / PGSIZE) then w else UserPte(vm, l)
  {
    hide Pte;
    PageIndices(va);
    assert IsRoot(vm, l.dir);
    if l.v / NENTRIES == va / PGSIZE / NENTRIES && l.v % NENTRIES == va / PGSIZE % NENTRIES {
      OtherIndices(l.v, va / PGSIZE);
    }
  }

  /** page_insert of a page that is mapped already. */
  lemma InsertIsEnter(s: Phys, s': Phys, d: nat, va: nat, w: Word)
    requires Inv(s) && va < UTOP && FlatSet(s.vm, s'.vm, d, Pdx(va), Ptx(va), w) && DataKept(s, s')
    requires s'.vm.dirs == s.vm.dirs && d in s.vm.dirs
    requires Present(w) && w.ppn as nat in FlatOf(s.vm).data
    ensures FlatOf(s'.vm) == Enter(FlatOf(s.vm), Loc(d, va / PGSIZE), w)
  {
    hide Inv, FlatSet, DataKept, FlatOf, UserPte, Good, Has;
    var f, at := FlatOf(s.vm), Loc(d, va / PGSIZE);
    FlatIsGood(s);
    EntersGood(f, at, w);
    var g := Enter(f, at, w);
    FlatMaps(s.vm);
    PageIndices(va);
    forall l | UserLoc(s.vm, l)
      ensures UserPte(s'.vm, l) == if l == at then w else UserPte(s.vm, l)
    {
      SetIsSet(s.vm, s'.vm, d, va, w, l);
    }
    forall p | p in g.data
      ensures p < |s'.vm.mem| && g.data[p] == s'.vm.mem[p]
    {
      KeptPage(s, s', p);
    }
    assert w != ZERO by { PresentNonzero(w); }
    FlatEqual(s'.vm, g);
  }

  lemma PresentNonzero(w: Word)
    requires Present(w)
    ensures w != ZERO
  {
  }

  lemma FlatMaps(vm: Vm)
    ensures forall l :: l in FlatOf(vm).maps <==> UserLoc(vm, l) && UserPte(vm, l) != ZERO
    ensures forall l :: l in FlatOf(vm).maps ==> FlatOf(vm).maps[l] == UserPte(vm, l)
  {
  }

  lemma EntersGood(f: Flat, at: Loc, w: Word)
    requires Good(f) && Present(w) && w.ppn as nat in f.data
    ensures Good(Enter(f, at, w))
  {
    var maps := f.maps[at := w];
    forall l | l in maps
      ensures Present(maps[l]) && maps[l].ppn as nat in f.data
    {
      if l != at { GoodHas(f, l); }
    }
    Settled(maps, f.data);
  }

  lemma KeptPage(s: Phys, s': Phys, p: nat)
    requires Inv(s) && DataKept(s, s') && p in FlatOf(s.vm).data
    ensures p < |s.vm.mem| == |s'.vm.mem| && s'.vm.mem[p] == s.vm.mem[p] == FlatOf(s.vm).data[p]
  {
    hide Inv, Structural;
    FlatIsGood(s);
    var l := MappedBy(MapsOf(s.vm), p);
    MappedPage(s, l);
  }

  /** page_alloc changes nothing that is mapped. */
  lemma AllocKeepsFlat(s: Phys, zero: bool)
    requires Inv(s) && s.fl != [] && s.fl[0] < |s.pages| == |s.vm.mem| && Inv(Popped(s, zero))
    requires SameTranslations(s.vm, Popped(s, zero).vm)
    ensures FlatOf(Popped(s, zero).vm) == FlatOf(s.vm)
  {
    hide Inv, FlatOf, UserPte, Good, SameTranslations;
    var t, f := Popped(s, zero), FlatOf(s.vm);
    FlatIsGood(s);
    FlatMaps(s.vm);
    forall l | UserLoc(s.vm, l)
      ensures UserPte(t.vm, l) == UserPte(s.vm, l)
    {
      SamePte(s.vm, t.vm, l);
    }
    assert s.fl[0] in s.fl;
    UnusedUnmapped(s, s.fl[0]);
    FlatEqual(t.vm, f);
  }

  lemma SamePte(vm: Vm, vm': Vm, l: Loc)
    requires SameTranslations(vm, vm') && UserLoc(vm, l)
    ensures UserPte(vm', l) == UserPte(vm, l)
  {
    hide Pte;
    assert IsRoot(vm, l.dir);
  }

  /** page_insert of a page that page_alloc has just zeroed. */
  lemma InsertIsFresh(s: Phys, s': Phys, d: nat, va: nat, p: Uint20, perm: Flags)
    requires Inv(s) && va < UTOP && FlatSet(s.vm, s'.vm, d, Pdx(va), Ptx(va), Word(p, perm | PTE_P)) && DataKept(s, s')
    requires s'.vm.dirs == s.vm.dirs && d in s.vm.dirs
    requires p as nat in s.loose && p < |s.vm.mem| && s.vm.mem[p] == ZeroFrame()
    ensures FlatOf(s'.vm) == Fresh(FlatOf(s.vm), Loc(d, va / PGSIZE), p, perm)
  {
    hide Inv, FlatSet, DataKept, FlatOf, UserPte, Good, Has;
    var f, at, w := FlatOf(s.vm), Loc(d, va / PGSIZE), Word(p, perm | PTE_P);
    FlatIsGood(s);
    UnusedUnmapped(s, p);
    FreshGood(f, at, p, perm);
    var g := Fresh(f, at, p, perm);
    FlatMaps(s.vm);
    PageIndices(va);
    forall l | UserLoc(s.vm, l)
      ensures UserPte(s'.vm, l) == if l == at then w else UserPte(s.vm, l)
    {
      SetIsSet(s.vm, s'.vm, d, va, w, l);
    }
    forall q | q in g.data
      ensures q < |s'.vm.mem| && g.data[q] == s'.vm.mem[q]
    {
      if q == p { LooseKept(s, s', p); } else { KeptPage(s, s', q); }
    }
    StillPresent(p, perm);
    PresentNonzero(w);
    FlatEqual(s'.vm, g);
  }

  lemma LooseKept(s: Phys, s': Phys, p: nat)
    requires Inv(s) && DataKept(s, s') && p in s.loose
    ensures p < |s.vm.mem| == |s'.vm.mem| && s'.vm.mem[p] == s.vm.mem[p]
  {
    LooseIsUnused(s, p);
    FreeIsUnreferenced(s, p);
  }

  lemma FreshGood(f: Flat, at: Loc, p: Uint20, perm: Flags)
    requires Good(f) && p as nat !in f.data
    ensures Good(Fresh(f, at, p, perm))
  {
    DoKeepsGood(f, PageAlloc(at, p, PTE_U | PTE_P));
    StillPresent(p, perm);
    var maps := f.maps[at := Word(p, perm | PTE_P)];
    var pool := f.data[p as nat := ZeroFrame()];
    forall l | l in maps
      ensures Present(maps[l]) && maps[l].ppn as nat in pool
    {
      if l != at { GoodHas(f, l); }
    }
    Settled(maps, pool);
  }

  /** page_remove. */
  lemma RemoveIsRemove(s: Phys, s': Phys, d: nat, va: nat)
    requires Inv(s) && va < UTOP && FlatSet(s.vm, s'.vm, d, Pdx(va), Ptx(va), ZERO) && DataSame(s.vm, s'.vm)
    requires s'.vm.dirs == s.vm.dirs && d in s.vm.dirs
    ensures FlatOf(s'.vm) == Remove(FlatOf(s.vm), Loc(d, va / PGSIZE))
  {
    hide Inv, FlatSet, DataSame, FlatOf, UserPte, Good;
    var f, at := FlatOf(s.vm), Loc(d, va / PGSIZE);
    FlatIsGood(s);
    DoKeepsGood(f, PageUnmap(at));
    var g := Remove(f, at);
    FlatMaps(s.vm);
    PageIndices(va);
    forall l | UserLoc(s.vm, l)
      ensures UserPte(s'.vm, l) == if l == at then ZERO else UserPte(s.vm, l)
    {
      SetIsSet(s.vm, s'.vm, d, va, ZERO, l);
    }
    forall p | p in g.data
      ensures p < |s'.vm.mem| && g.data[p] == s'.vm.mem[p]
    {
      UnchangedPage(s, s', p);
    }
    FlatEqual(s'.vm, g);
  }

  lemma UnchangedPage(s: Phys, s': Phys, p: nat)
    requires Inv(s) && DataSame(s.vm, s'.vm) && p in FlatOf(s.vm).data
    ensures p < |s.vm.mem| == |s'.vm.mem| && s'.vm.mem[p] == s.vm.mem[p] == FlatOf(s.vm).data[p]
  {
    hide Structural;
    KeptPage(s, s', p);
  }

  lemma LeafSetIsFlatSet(vm: Vm, vm': Vm, d: nat, i: nat, j: nat, w: Word)
    requires LeafSet(vm, vm', d, i, j, w)
    ensures FlatSet(vm, vm', d, i, j, w)
  {
    hide Pte;
  }

  /** env_free. */
  lemma FreeIsRemoveAll(s: Phys, s': Phys, d: nat)
    requires Inv(s) && OthersKept(s.vm, s'.vm, d) && DataSame(s.vm, s'.vm) && s'.vm.dirs == s.vm.dirs - {d}
    requires d in s.vm.dirs
    ensures FlatOf(s'.vm) == RemoveAll(FlatOf(s.vm), d)
  {
    hide Inv, OthersKept, DataSame, FlatOf, UserPte, Good;
    var f := FlatOf(s.vm);
    FlatIsGood(s);
    DoKeepsGood(f, EnvFree(d));
    var g := RemoveAll(f, d);
    FlatMaps(s.vm);
    forall l | UserLoc(s.vm, l) && l.dir != d
      ensures UserPte(s'.vm, l) == UserPte(s.vm, l)
    {
      OtherPte(s.vm, s'.vm, d, l);
    }
    forall p | p in g.data
      ensures p < |s'.vm.mem| && g.data[p] == s'.vm.mem[p]
    {
      UnchangedPage(s, s', p);
    }
    FlatEqual(s'.vm, g);
  }

  lemma OtherPte(vm: Vm, vm': Vm, d: nat, l: Loc)
    requires OthersKept(vm, vm', d) && UserLoc(vm, l) && l.dir != d
    ensures UserPte(vm', l) == UserPte(vm, l)
  {
    hide Pte;
    assert IsRoot(vm, l.dir);
  }

  /** env_setup_vm adds a directory that maps nothing. */
  lemma SetupIsEmpty(s: Phys, s': Phys, d: nat)
    requires Inv(s) && Inv(s') && OthersKept(s.vm, s'.vm, d) && s'.vm.dirs == s.vm.dirs + {d}
    requires d !in s.vm.dirs && DataKept(s, s')
    requires forall i: nat, j: nat :: i < USER_PDES && j < NENTRIES ==> Pte(s'.vm.mem, d, i, j) == ZERO
    ensures FlatOf(s'.vm) == FlatOf(s.vm)
  {
    hide Inv, OthersKept, DataKept, FlatOf, Good, Pte;
    var f := FlatOf(s.vm);
    FlatIsGood(s);
    FlatMaps(s.vm);
    forall l | UserLoc(s.vm, l)
      ensures UserPte(s'.vm, l) == UserPte(s.vm, l)
    {
      OtherPte(s.vm, s'.vm, d, l);
    }
    forall l | UserLoc(s'.vm, l) && l.dir == d
      ensures UserPte(s'.vm, l) == ZERO
    {
      assert l.v / NENTRIES < USER_PDES;
    }
    forall p | p in f.data
      ensures p < |s'.vm.mem| && f.data[p] == s'.vm.mem[p]
    {
      KeptPage(s, s', p);
    }
    FlatEqual(s'.vm, f);
  }

  /** What the hardware finds is what the flat map says: the page, and the permissions of the
      entry alone, because every user directory entry grants all of them. */
  lemma HardwareAgrees(s: Phys, l: Loc)
    requires Inv(s) && UserLoc(s.vm, l)
    ensures var x, f := Walk(s.vm.mem, l.dir, l.v / NENTRIES, l.v % NENTRIES), FlatOf(s.vm);
      && (x.Some? <==> l in f.maps)
      && (x.Some? ==>
            && x.value.ppn == f.maps[l].ppn
            && (x.value.write <==> Has(f.maps[l], PTE_W))
            && (x.value.user <==> Has(f.maps[l], PTE_U)))
  {
    hide Separated, Exact, FreeIffUnused, OnlySlotted, Has;
    var i, j := l.v / NENTRIES, l.v % NENTRIES;
    LeafFacts(s, l.dir, i, j);
    var pde := Entry(s.vm.mem, l.dir, i);
    assert pde == ZERO || Has(pde, PTE_P | PTE_W | PTE_U);
    if pde != ZERO {
      FullAccess(pde);
    }
    NothingInZero();
    if Present(UserPte(s.vm, l)) {
      PresentNonzero(UserPte(s.vm, l));
    }
  }

  lemma NothingInZero()
    ensures !Has(ZERO, PTE_P)
  {
  }
}
