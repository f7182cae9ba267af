/** Reference counts and the free list of physical pages, as a value, and what the elementary
    steps of the page allocator do to them. */
module Refcount {
  import opened Options
  import opened Paging

  /** struct PageInfo: the free-list link and the 16-bit reference count. */
  datatype PageInfo = PageInfo(link: Option<nat>, refs: nat)

  const MAX_REFS := 65535

  /** The state of physical memory.  `fl` lists the free pages from the head.  `extra` counts
      references that lie in no slot: those held for ever by the kernel, and those held by code
      about to store them.  `loose` are pages allocated and not yet referenced. */
  datatype Phys = Phys(pages: seq<PageInfo>, vm: Vm, fl: seq<nat>, extra: multiset<nat>, loose: set<nat>)

  predicate Linked(pages: seq<PageInfo>, fl: seq<nat>, k: nat)
    requires k < |fl|
  {
    fl[k] < |pages| && pages[fl[k]].link == if k + 1 < |fl| then Some(fl[k + 1]) else None
  }

  /** The links of `pages` string the pages of `fl` together, once each, and link nothing else. */
  ghost predicate Chain(pages: seq<PageInfo>, head: Option<nat>, fl: seq<nat>) {
    && head == (if fl == [] then None else Some(fl[0]))
    && (forall k :: 0 <= k < |fl| ==> Linked(pages, fl, k))
    && (forall k, m :: 0 <= k < m < |fl| ==> fl[k] != fl[m])
    && (forall p :: 0 <= p < |pages| && p !in fl ==> pages[p].link == None)
  }

  ghost predicate Exact(s: Phys) {
    forall p :: 0 <= p < |s.pages| ==> s.pages[p].refs == |Holders(s.vm, p)| + s.extra[p]
  }

  ghost predicate FreeIffUnused(s: Phys) {
    && (forall p :: 0 <= p < |s.pages| ==> (s.pages[p].refs == 0 <==> p in s.fl || p in s.loose))
    && (forall p :: p in s.loose ==> p < |s.pages| && p !in s.fl)
    && (forall k :: 0 <= k < |s.fl| ==> s.fl[k] < |s.pages|)
  }

  ghost predicate Inv(s: Phys) {
    && |s.pages| == |s.vm.mem|
    && Separated(s.vm) && WellFormed(s.vm)
    && Exact(s) && FreeIffUnused(s)
    && s.extra[s.vm.kdir] >= 1 && s.extra[0] >= 1
    && OnlySlotted(s.vm, s.extra)
  }

  /** A directory or page table has no other reference than its one slot. */
  ghost predicate OnlySlotted(vm: Vm, extra: multiset<nat>) {
    forall sl :: IsSlot(vm, sl) && !sl.Leaf? && Target(vm.mem, sl).Some? ==> extra[Target(vm.mem, sl).value] == 0
  }

  // ---- The elementary steps ----

  function Popped(s: Phys, zero: bool): (r: Phys)
    requires s.fl != [] && s.fl[0] < |s.pages| == |s.vm.mem|
  {
    var p := s.fl[0];
    Phys(s.pages[p := PageInfo(None, s.pages[p].refs)],
         Vm(if zero then s.vm.mem[p := ZeroFrame()] else s.vm.mem, s.vm.kdir, s.vm.dirs),
         s.fl[1..], s.extra, s.loose + {p})
  }

  function Taken(s: Phys, p: nat): (r: Phys)
    requires p < |s.pages|
  {
    Phys(s.pages[p := PageInfo(s.pages[p].link, s.pages[p].refs + 1)], s.vm, s.fl, s.extra + multiset{p}, s.loose - {p})
  }

  function Dropped(s: Phys, p: nat): (r: Phys)
    requires p < |s.pages| && s.pages[p].refs >= 1
  {
    if s.pages[p].refs > 1 then
      Phys(s.pages[p := PageInfo(s.pages[p].link, s.pages[p].refs - 1)], s.vm, s.fl, s.extra - multiset{p}, s.loose)
    else
      Phys(s.pages[p := PageInfo(if s.fl == [] then None else Some(s.fl[0]), 0)], s.vm,
           [p] + s.fl, s.extra - multiset{p}, s.loose)
  }

  lemma DroppedIs(s: Phys, p: nat)
    requires p < |s.pages| && s.pages[p].refs >= 1
    ensures var t := Dropped(s, p); t.fl == (if s.pages[p].refs == 1 then [p] + s.fl else s.fl)
    ensures var t := Dropped(s, p);
            t.pages == s.pages[p := if s.pages[p].refs == 1 then PageInfo(if s.fl == [] then None else Some(s.fl[0]), 0)
                                                       else PageInfo(s.pages[p].link, s.pages[p].refs - 1)]
  {
  }

  function One(o: Option<nat>): multiset<nat> {
    match o case Some(p) => multiset{p} case None => multiset{}
  }

  /** A free page has no reference at all, so it can be zeroed and put to a new use. */
  lemma FreeIsUnreferenced(s: Phys, p: nat)
    requires Inv(s) && p < |s.pages| && s.pages[p].refs == 0
    ensures Unreferenced(s.vm, p) && !Structural(s.vm, p)
  {
    HeldBy(s.vm, p);
  }

  /** Every directory gives every page the same entry and the same translation. */
  ghost predicate SameTranslations(vm: Vm, vm': Vm) {
    && (forall r, i: nat :: IsRoot(vm, r) && i < NENTRIES ==> Entry(vm'.mem, r, i) == Entry(vm.mem, r, i))
    && (forall r, i: nat, j: nat :: IsRoot(vm, r) && i < NENTRIES && j < NENTRIES ==>
          Pte(vm'.mem, r, i, j) == Pte(vm.mem, r, i, j) && Walk(vm'.mem, r, i, j) == Walk(vm.mem, r, i, j))
  }

  lemma PoppedFree(s: Phys, zero: bool)
    requires FreeIffUnused(s) && |s.pages| == |s.vm.mem| && s.fl != []
    requires (forall k, m :: 0 <= k < m < |s.fl| ==> s.fl[k] != s.fl[m])
    ensures s.fl[0] < |s.pages| && s.pages[s.fl[0]].refs == 0 && s.fl[0] !in s.loose && FreeIffUnused(Popped(s, zero))
  {
    var t := Popped(s, zero);
    assert s.fl[0] in s.fl;
    assert s.fl == [s.fl[0]] + t.fl;
    assert forall k :: 0 <= k < |t.fl| ==> t.fl[k] == s.fl[k + 1];
  }

  /** Equal references and equal counts: counts stay exact. */
  lemma SameCounts(s: Phys, t: Phys)
    requires Exact(s) && OnlySlotted(s.vm, s.extra) && t.vm == s.vm.(mem := t.vm.mem) && t.extra == s.extra
    requires |t.pages| == |s.pages| && forall p :: 0 <= p < |s.pages| ==> t.pages[p].refs == s.pages[p].refs
    requires forall x :: IsSlot(s.vm, x) ==> Target(t.vm.mem, x) == Target(s.vm.mem, x)
    ensures Exact(t) && OnlySlotted(t.vm, t.extra)
  {
    hide Target, Holders;
    forall q | 0 <= q < |t.pages| ensures |Holders(t.vm, q)| == |Holders(s.vm, q)| { HoldersSame(s.vm, t.vm, q); }
    forall x | IsSlot(t.vm, x) && !x.Leaf? && Target(t.vm.mem, x).Some?
      ensures t.extra[Target(t.vm.mem, x).value] == 0
    {
      assert IsSlot(s.vm, x);
    }
  }

  lemma PoppedInv(s: Phys, zero: bool)
    requires Inv(s) && s.fl != [] && (forall k, m :: 0 <= k < m < |s.fl| ==> s.fl[k] != s.fl[m])
    ensures s.fl[0] < |s.pages| <= 0x10_0000 && s.pages[s.fl[0]].refs == 0 && s.fl[0] !in s.loose
    ensures Inv(Popped(s, zero))
    ensures SameTranslations(s.vm, Popped(s, zero).vm)
  {
    PoppedFree(s, zero);
    hide FreeIffUnused, Walk, Exact, OnlySlotted, Entry, Pte, Target;
    var p, t := s.fl[0], Popped(s, zero);
    FreeIsUnreferenced(s, p);
    DataFrame(s.vm, p, ZeroFrame());
    SameCounts(s, t);
  }

  lemma TakenInv(s: Phys, p: nat)
    requires Inv(s) && p < |s.pages| && p !in s.fl && !Structural(s.vm, p)
    ensures Inv(Taken(s, p))
  {
    var t := Taken(s, p);
    assert forall sl :: IsSlot(t.vm, sl) && !sl.Leaf? && Target(t.vm.mem, sl).Some? ==> Target(s.vm.mem, sl) != Some(p);
    forall q | 0 <= q < |t.pages| ensures t.pages[q].refs == |Holders(t.vm, q)| + t.extra[q] {}
  }

  /** pp_ref++ as the processor does it: pp_ref is a uint16_t. */
  function Incremented(s: Phys, p: nat): (r: Phys)
    requires p < |s.pages|
  {
    Taken(s, p).(pages := s.pages[p := PageInfo(s.pages[p].link, (s.pages[p].refs + 1) % 0x1_0000)])
  }

  /** Counts stay exact exactly while fewer than 65535 references are counted.  With one more the
      count is 0, that of a free page, and 65536 references are there. */
  lemma IncrementedIff(s: Phys, p: nat)
    requires Inv(s) && p < |s.pages| && s.pages[p].refs <= MAX_REFS
    ensures Exact(Incremented(s, p)) <==> s.pages[p].refs < MAX_REFS
    ensures s.pages[p].refs < MAX_REFS && p !in s.fl && !Structural(s.vm, p) ==> Inv(Incremented(s, p))
    ensures s.pages[p].refs == MAX_REFS ==>
              var t := Incremented(s, p); t.pages[p].refs == 0 && |Holders(t.vm, p)| + t.extra[p] == 0x1_0000
  {
    hide Separated, WellFormed, Holders, OnlySlotted, FreeIffUnused, Structural;
    var t := Incremented(s, p);
    assert t.vm == s.vm && forall q :: t.extra[q] == if q == p then s.extra[q] + 1 else s.extra[q];
    if s.pages[p].refs < MAX_REFS {
      assert t == Taken(s, p);
      forall q | 0 <= q < |t.pages| ensures t.pages[q].refs == |Holders(t.vm, q)| + t.extra[q] {}
      if p !in s.fl && !Structural(s.vm, p) { TakenInv(s, p); }
    }
  }

  lemma DroppedInv(s: Phys, p: nat)
    requires Inv(s) && p < |s.pages| && s.pages[p].refs >= 1 && p in s.extra
    requires (p == s.vm.kdir || p == 0) ==> s.extra[p] >= 2
    ensures Inv(Dropped(s, p))
  {
    hide Separated, WellFormed, Holders;
    var t := Dropped(s, p);
    assert t.vm == s.vm && forall q :: t.extra[q] == if q == p then s.extra[q] - 1 else s.extra[q];
    forall q | 0 <= q < |t.pages| ensures t.pages[q].refs == |Holders(t.vm, q)| + t.extra[q] {}
    assert FreeIffUnused(t);
  }

  /** A store that moves slot `sl` from one page to another trades a reference out of `extra`
      for one back into it. */
  lemma MovedInv(s: Phys, vm': Vm, sl: Slot)
    requires Inv(s) && vm' == s.vm.(mem := vm'.mem) && |vm'.mem| == |s.vm.mem| && Separated(vm') && WellFormed(vm')
    requires IsSlot(s.vm, sl) && forall x :: IsSlot(s.vm, x) && x != sl ==> Target(vm'.mem, x) == Target(s.vm.mem, x)
    requires One(Target(vm'.mem, sl)) <= s.extra
    requires !sl.Leaf? && Target(vm'.mem, sl).Some? ==> s.extra[Target(vm'.mem, sl).value] == 1
    requires !sl.Leaf? && Target(vm'.mem, sl).Some? ==> Target(s.vm.mem, sl) == None
    requires s.extra[s.vm.kdir] - One(Target(vm'.mem, sl))[s.vm.kdir] >= 1
    requires s.extra[0] - One(Target(vm'.mem, sl))[0] >= 1
    ensures Inv(s.(vm := vm', extra := s.extra - One(Target(vm'.mem, sl)) + One(Target(s.vm.mem, sl))))
  {
    hide Separated, WellFormed, OnlySlotted, Target;
    var t := s.(vm := vm', extra := s.extra - One(Target(vm'.mem, sl)) + One(Target(s.vm.mem, sl)));
    forall q | 0 <= q < |t.pages| ensures t.pages[q].refs == |Holders(t.vm, q)| + t.extra[q] {
      HoldersChange(s.vm, vm', sl, q);
    }
    MovedSlotted(s, vm', sl);
  }

  /** What a slot gives up is no directory and no page table of another slot. */
  lemma MovedSlotted(s: Phys, vm': Vm, sl: Slot)
    requires Inv(s) && vm'.kdir == s.vm.kdir && vm'.dirs == s.vm.dirs
    requires IsSlot(s.vm, sl) && forall x :: IsSlot(s.vm, x) && x != sl ==> Target(vm'.mem, x) == Target(s.vm.mem, x)
    requires !sl.Leaf? && Target(vm'.mem, sl).Some? ==> s.extra[Target(vm'.mem, sl).value] == 1
    requires !sl.Leaf? && Target(vm'.mem, sl).Some? ==> Target(s.vm.mem, sl) == None
    ensures OnlySlotted(vm', s.extra - One(Target(vm'.mem, sl)) + One(Target(s.vm.mem, sl)))
  {
    hide WellFormed, Exact, FreeIffUnused, Target;
    var extra := s.extra - One(Target(vm'.mem, sl)) + One(Target(s.vm.mem, sl));
    forall x | IsSlot(vm', x) && !x.Leaf? && Target(vm'.mem, x).Some?
      ensures extra[Target(vm'.mem, x).value] == 0
    {
      assert IsSlot(s.vm, x);
      if x != sl {
        assert Target(vm'.mem, x) == Target(s.vm.mem, x);
        assert Target(s.vm.mem, sl) != Target(s.vm.mem, x);
      }
    }
  }

  lemma KeptInv(s: Phys, vm': Vm)
    requires Inv(s) && vm' == s.vm.(mem := vm'.mem) && |vm'.mem| == |s.vm.mem| && Separated(vm') && WellFormed(vm')
    requires forall x :: IsSlot(s.vm, x) ==> Target(vm'.mem, x) == Target(s.vm.mem, x)
    ensures Inv(s.(vm := vm'))
  {
    forall q | 0 <= q < |s.pages| ensures |Holders(vm', q)| == |Holders(s.vm, q)| { HoldersSame(s.vm, vm', q); }
    forall x | IsSlot(vm', x) && !x.Leaf? && Target(vm'.mem, x).Some? ensures s.extra[Target(vm'.mem, x).value] == 0 {
      assert IsSlot(s.vm, x);
    }
  }

  lemma ChainInRange(pages: seq<PageInfo>, head: Option<nat>, fl: seq<nat>)
    requires Chain(pages, head, fl)
    ensures forall k :: 0 <= k < |fl| ==> fl[k] < |pages|
  {
    forall k | 0 <= k < |fl| ensures fl[k] < |pages| { assert Linked(pages, fl, k); }
  }

  lemma PushedChain(pages: seq<PageInfo>, head: Option<nat>, fl: seq<nat>, p: nat)
    requires Chain(pages, head, fl) && p < |pages| && p !in fl
    ensures Chain(pages[p := PageInfo(head, 0)], Some(p), [p] + fl)
  {
    var pages', fl' := pages[p := PageInfo(head, 0)], [p] + fl;
    forall k | 0 <= k < |fl| ensures fl'[k + 1] == fl[k] && fl[k] != p {
      assert fl[k] in fl;
    }
    forall k | 0 <= k < |fl'| ensures Linked(pages', fl', k) {
      if k > 0 {
        assert Linked(pages, fl, k - 1);
        assert fl'[k] == fl[k - 1];
        assert k < |fl| ==> fl'[k + 1] == fl[k];
      }
    }
    forall k, m | 0 <= k < m < |fl'| ensures fl'[k] != fl'[m] {
      assert fl'[m] == fl[m - 1];
      if k > 0 { assert fl'[k] == fl[k - 1]; }
    }
    forall q | 0 <= q < |pages'| && q !in fl' ensures pages'[q].link == None {
      assert q !in fl && q != fl'[0];
    }
  }

  lemma PoppedChain(pages: seq<PageInfo>, head: Option<nat>, fl: seq<nat>)
    requires Chain(pages, head, fl) && fl != []
    ensures Linked(pages, fl, 0)
    ensures Chain(pages[fl[0] := PageInfo(None, pages[fl[0]].refs)], pages[fl[0]].link, fl[1..])
  {
    assert Linked(pages, fl, 0);
    var p, fl' := fl[0], fl[1..];
    var pages' := pages[p := PageInfo(None, pages[p].refs)];
    forall k | 0 <= k < |fl'| ensures Linked(pages', fl', k) {
      assert Linked(pages, fl, k + 1);
      assert fl'[k] == fl[k + 1];
      assert k + 1 < |fl'| ==> fl'[k + 1] == fl[k + 2];
    }
    assert fl' != [] ==> fl'[0] == fl[1];
    forall q | 0 <= q < |pages'| && q !in fl' ensures pages'[q].link == None {
      assert fl == [p] + fl';
      assert q != p ==> q !in fl;
    }
  }

  lemma RecountedChain(pages: seq<PageInfo>, head: Option<nat>, fl: seq<nat>, p: nat, refs: nat)
    requires Chain(pages, head, fl) && p < |pages|
    ensures Chain(pages[p := PageInfo(pages[p].link, refs)], head, fl)
  {
    var pages' := pages[p := PageInfo(pages[p].link, refs)];
    forall k | 0 <= k < |fl| ensures Linked(pages', fl, k) {
      assert Linked(pages, fl, k);
    }
  }

  // ---- A page table entered on demand ----

  /** Changing the directory entry (d, i) keeps all page table entries and every translation. */
  ghost predicate TablesKept(vm: Vm, vm': Vm, d: nat, i: nat) {
    && (forall r, m: nat :: IsRoot(vm, r) && m < NENTRIES && !(r == d && m == i) ==>
        Entry(vm'.mem, r, m) == Entry(vm.mem, r, m))
    && (forall r, m: nat, n: nat :: IsRoot(vm, r) && m < NENTRIES && m != UVPT_PDE && n < NENTRIES ==>
          Pte(vm'.mem, r, m, n) == Pte(vm.mem, r, m, n))
    && (forall r, m: nat, n: nat :: IsRoot(vm, r) && m < NENTRIES && n < NENTRIES && Walk(vm.mem, r, m, n).Some? ==>
          Walk(vm'.mem, r, m, n) == Walk(vm.mem, r, m, n))
  }

  const USER_PDE: Flags := PTE_P | PTE_U | PTE_W

  function WithTable(s: Phys, d: nat, i: nat): (r: Phys)
    requires s.fl != [] && s.fl[0] < |s.pages| == |s.vm.mem| <= 0x10_0000 && d < |s.vm.mem| && i < NENTRIES
  {
    var t := s.fl[0];
    Phys(s.pages[t := PageInfo(None, s.pages[t].refs + 1)],
         Vm(Store(s.vm.mem[t := ZeroFrame()], d, i, Word(t, USER_PDE)), s.vm.kdir, s.vm.dirs),
         s.fl[1..], s.extra, s.loose)
  }

  /** The page for the new table, taken off the free list with the reference it is about to have. */
  lemma TableTaken(s: Phys)
    requires Inv(s) && s.fl != [] && (forall k, m :: 0 <= k < m < |s.fl| ==> s.fl[k] != s.fl[m])
    ensures s.fl[0] < |s.pages| == |s.vm.mem| <= 0x10_0000 && s.pages[s.fl[0]].refs == 0 && s.fl[0] !in s.loose
    ensures var t, s2 := s.fl[0], Taken(Popped(s, true), s.fl[0]);
            && Inv(s2) && SameTranslations(s.vm, s2.vm) && Unreferenced(s2.vm, t) && t != s2.vm.kdir && t != 0
            && s2.extra[t] == 1
            && s2.extra - multiset{t} == s.extra && s2.loose == s.loose
            && s2.vm.mem[t] == ZeroFrame()
  {
    hide Separated, WellFormed, Exact, FreeIffUnused, OnlySlotted, SameTranslations, Structural;
    var t := s.fl[0];
    PoppedInv(s, true);
    var s1 := Popped(s, true);
    FreeIsUnreferenced(s1, t);
    UnusedExtra(s1, t);
    TakenInv(s1, t);
  }

  /** The new table entered in the directory. */
  lemma TableEntered(s: Phys, s2: Phys, d: nat, i: nat, t: Uint20)
    requires Inv(s) && Owns(s.vm, d, i) && Entry(s.vm.mem, d, i) == ZERO
    requires Inv(s2) && SameTranslations(s.vm, s2.vm) && s2.vm.kdir == s.vm.kdir && s2.vm.dirs == s.vm.dirs
             && |s2.vm.mem| == |s.vm.mem|
    requires Unreferenced(s2.vm, t) && t != s2.vm.kdir && t != 0 && s2.extra[t] == 1 && s2.vm.mem[t] == ZeroFrame()
    ensures d < |s.vm.mem|
    ensures var vm3 := s2.vm.(mem := Store(s2.vm.mem, d, i, Word(t, USER_PDE)));
            && Inv(s2.(vm := vm3, extra := s2.extra - multiset{t as nat})) && TablesKept(s.vm, vm3, d, i)
            && Target(vm3.mem, Table(d, i)) == Some(t as nat)
            && forall x :: IsSlot(s2.vm, x) && x != Table(d, i) ==> Target(vm3.mem, x) == Target(s2.vm.mem, x)
  {
    hide Separated, WellFormed, Exact, FreeIffUnused, OnlySlotted, Store, Holders;
    RootSlot(s.vm, d);
    var w := Word(t, USER_PDE);
    assert Entry(s2.vm.mem, d, i) == ZERO by { assert IsRoot(s.vm, d); }
    DirStore(s2.vm, d, i, w);
    var vm3 := s2.vm.(mem := Store(s2.vm.mem, d, i, w));
    assert TablesKept(s2.vm, vm3, d, i);
    TablesKeptVia(s.vm, s2.vm, vm3, d, i);
    MovedInv(s2, vm3, Table(d, i));
    assert s2.extra - multiset{t as nat} + multiset{} == s2.extra - multiset{t as nat};
  }

  lemma WithTableInv(s: Phys, d: nat, i: nat)
    requires Inv(s) && s.fl != [] && (forall k, m :: 0 <= k < m < |s.fl| ==> s.fl[k] != s.fl[m])
    requires Owns(s.vm, d, i) && Entry(s.vm.mem, d, i) == ZERO
    ensures s.fl[0] < |s.pages| <= 0x10_0000 && s.pages[s.fl[0]].refs == 0 && s.fl[0] !in s.loose && d < |s.vm.mem|
    ensures Inv(WithTable(s, d, i)) && TablesKept(s.vm, WithTable(s, d, i).vm, d, i)
    ensures NoNewRoles(s, WithTable(s, d, i))
  {
    hide Inv, Store, Structural, Holders, SameTranslations, TablesKept, Unreferenced, Target, Entry;
    TableTaken(s);
    var t := s.fl[0];
    var s2 := Taken(Popped(s, true), t);
    TableEntered(s, s2, d, i, t);
    var vm3 := s2.vm.(mem := Store(s2.vm.mem, d, i, Word(t, USER_PDE)));
    assert WithTable(s, d, i) == s2.(vm := vm3, extra := s2.extra - multiset{t});
    NewTableRoles(s, s2.vm, vm3, d, i, t);
  }

  lemma TablesKeptVia(vm: Vm, vm2: Vm, vm3: Vm, d: nat, i: nat)
    requires SameTranslations(vm, vm2) && TablesKept(vm2, vm3, d, i) && vm2.kdir == vm.kdir && vm2.dirs == vm.dirs
    ensures TablesKept(vm, vm3, d, i)
  {
    assert forall r :: IsRoot(vm, r) ==> IsRoot(vm2, r);
  }

  lemma NewTableRoles(s: Phys, vm2: Vm, vm3: Vm, d: nat, i: nat, t: nat)
    requires SameTranslations(s.vm, vm2) && s.fl != [] && s.fl[0] == t && Target(vm3.mem, Table(d, i)) == Some(t)
    requires vm2.kdir == vm3.kdir == s.vm.kdir && vm2.dirs == vm3.dirs == s.vm.dirs
    requires forall x :: IsSlot(vm2, x) && x != Table(d, i) ==> Target(vm3.mem, x) == Target(vm2.mem, x)
    ensures forall p: nat :: !Structural(s.vm, p) && p !in s.fl ==> !Structural(vm3, p)
  {
    forall p: nat | !Structural(s.vm, p) && p !in s.fl ensures !Structural(vm3, p) {
      assert p != t by { assert s.fl[0] in s.fl; }
      forall x | IsSlot(vm3, x) && !x.Leaf? ensures Target(vm3.mem, x) != Some(p) {
        if x != Table(d, i) { SameTargets(s.vm, vm2, x); }
      }
    }
  }

  lemma UnusedExtra(s: Phys, p: nat)
    requires Inv(s) && p < |s.pages| && s.pages[p].refs == 0
    ensures s.extra[p] == 0
  {
  }

  lemma SameTargets(vm: Vm, vm': Vm, x: Slot)
    requires SameTranslations(vm, vm') && vm'.kdir == vm.kdir && vm'.dirs == vm.dirs && IsSlot(vm, x)
    ensures Target(vm'.mem, x) == Target(vm.mem, x)
  {
    match x
    case Root(d) =>
    case Table(d, i) => assert IsRoot(vm, d) && i < NENTRIES;
    case Leaf(d, i, j) => assert IsRoot(vm, d) && i < NENTRIES;
  }

  // ---- Page table entries removed and set ----

  /** The entry (d, i, j) becomes `w`; no other entry of any directory changes. */
  ghost predicate LeafSet(vm: Vm, vm': Vm, d: nat, i: nat, j: nat, w: Word) {
    && (forall r, m: nat :: IsRoot(vm, r) && m < NENTRIES ==> Entry(vm'.mem, r, m) == Entry(vm.mem, r, m))
    && (forall r, m: nat, n: nat :: IsRoot(vm, r) && m < NENTRIES && n < NENTRIES ==>
          Pte(vm'.mem, r, m, n) == if r == d && m == i && n == j then w else Pte(vm.mem, r, m, n))
  }

  /** Page (i, j) of directory `d` becomes `w` in the flat map; all other pages of all
      directories keep their entry (the self-map at UVPT shows page tables, not pages). */
  ghost predicate FlatSet(vm: Vm, vm': Vm, d: nat, i: nat, j: nat, w: Word) {
    forall r, m: nat, n: nat :: IsRoot(vm, r) && m < NENTRIES && m != UVPT_PDE && n < NENTRIES ==>
      Pte(vm'.mem, r, m, n) == if r == d && m == i && n == j then w else Pte(vm.mem, r, m, n)
  }

  lemma FlatSetOf(vm0: Vm, vm1: Vm, vm2: Vm, d: nat, i: nat, j: nat, w: Word)
    requires LeafSet(vm0, vm1, d, i, j, w) && TablesKept(vm1, vm2, d, i)
    requires vm1.kdir == vm0.kdir && vm1.dirs == vm0.dirs
    ensures FlatSet(vm0, vm2, d, i, j, w)
  {
    forall r, m: nat, n: nat | IsRoot(vm0, r) && m < NENTRIES && m != UVPT_PDE && n < NENTRIES
      ensures Pte(vm2.mem, r, m, n) == if r == d && m == i && n == j then w else Pte(vm0.mem, r, m, n)
    {
      assert IsRoot(vm1, r);
    }
  }

  lemma FlatSetAfter(vm0: Vm, vm1: Vm, vm2: Vm, d: nat, i: nat, j: nat, w: Word)
    requires LeafSet(vm0, vm1, d, i, j, ZERO) && FlatSet(vm1, vm2, d, i, j, w)
    requires vm1.kdir == vm0.kdir && vm1.dirs == vm0.dirs
    ensures FlatSet(vm0, vm2, d, i, j, w)
  {
    assert forall r :: IsRoot(vm0, r) ==> IsRoot(vm1, r);
  }

  lemma FlatSetSince(vm0: Vm, vm1: Vm, vm2: Vm, d: nat, i: nat, j: nat, w: Word)
    requires TablesKept(vm0, vm1, d, i) && FlatSet(vm1, vm2, d, i, j, w)
    requires vm1.kdir == vm0.kdir && vm1.dirs == vm0.dirs
    ensures FlatSet(vm0, vm2, d, i, j, w)
  {
    assert forall r :: IsRoot(vm0, r) ==> IsRoot(vm1, r);
  }

  ghost predicate NoNewRoles(s: Phys, s': Phys) {
    forall p: nat :: !Structural(s.vm, p) && p !in s.fl ==> !Structural(s'.vm, p)
  }

  lemma NoRole(s: Phys, s': Phys, p: nat)
    requires NoNewRoles(s, s') && !Structural(s.vm, p) && p !in s.fl
    ensures !Structural(s'.vm, p)
  {
  }

  lemma NoRoleAfterClear(s: Phys, s': Phys, d: nat, i: nat, j: nat, p: nat)
    requires LeafSet(s.vm, s'.vm, d, i, j, ZERO) && s'.vm.kdir == s.vm.kdir && s'.vm.dirs == s.vm.dirs
    requires !Structural(s.vm, p)
    ensures !Structural(s'.vm, p)
  {
    forall x | IsSlot(s'.vm, x) && !x.Leaf? ensures Target(s'.vm.mem, x) != Some(p) {
      assert IsSlot(s.vm, x) && IsRoot(s.vm, x.d);
      assert Target(s'.vm.mem, x) == Target(s.vm.mem, x);
    }
  }

  lemma ChainHead(pages: seq<PageInfo>, head: Option<nat>, fl: seq<nat>)
    requires Chain(pages, head, fl)
    ensures head == if fl == [] then None else Some(fl[0])
  {
  }

  lemma LeafSetAt(vm: Vm, vm': Vm, d: nat, i: nat, j: nat, w: Word)
    requires LeafSet(vm, vm', d, i, j, w) && UserPage(vm, d, i, j)
    ensures Pte(vm'.mem, d, i, j) == w && Entry(vm'.mem, d, i) == Entry(vm.mem, d, i)
  {
    assert IsRoot(vm, d);
  }

  lemma LeafSetSame(vm: Vm, d: nat, i: nat, j: nat)
    requires Pte(vm.mem, d, i, j) == ZERO
    ensures LeafSet(vm, vm, d, i, j, ZERO)
  {
  }

  ghost predicate UserPage(vm: Vm, d: nat, i: nat, j: nat) {
    d in vm.dirs && i < USER_PDES && j < NENTRIES
  }

  /** A user page table entry is zero or names an allocated data page. */
  lemma LeafFacts(s: Phys, d: nat, i: nat, j: nat)
    requires Inv(s) && UserPage(s.vm, d, i, j)
    ensures Owns(s.vm, d, i) && IsRoot(s.vm, d) && d != s.vm.kdir
    ensures Present(Entry(s.vm.mem, d, i)) ==> Entry(s.vm.mem, d, i).ppn < |s.vm.mem|
    ensures !Present(Pte(s.vm.mem, d, i, j)) ==> Pte(s.vm.mem, d, i, j) == ZERO
    ensures Present(Pte(s.vm.mem, d, i, j)) ==>
              var p := Pte(s.vm.mem, d, i, j).ppn;
              && Present(Entry(s.vm.mem, d, i)) && p < |s.pages| && s.pages[p].refs >= 1 && p !in s.fl
              && p != s.vm.kdir && !Structural(s.vm, p)
  {
    var sl := Leaf(d, i, j);
    assert IsSlot(s.vm, sl) && IsSlot(s.vm, Table(d, i));
    if Present(Entry(s.vm.mem, d, i)) { assert Target(s.vm.mem, Table(d, i)).Some?; }
    if Present(Pte(s.vm.mem, d, i, j)) {
      var p := Pte(s.vm.mem, d, i, j).ppn;
      assert Target(s.vm.mem, sl) == Some(p as nat);
      IsHolder(s.vm, p, sl);
      assert sl in Holders(s.vm, p);
      assert s.pages[p].refs >= 1;
    }
  }

  function WithoutLeaf(s: Phys, d: nat, i: nat, j: nat): (r: Phys)
    requires j < NENTRIES && Entry(s.vm.mem, d, i).ppn < |s.vm.mem|
    requires Pte(s.vm.mem, d, i, j).ppn < |s.pages| && s.pages[Pte(s.vm.mem, d, i, j).ppn].refs >= 1
  {
    var dropped := Dropped(s, Pte(s.vm.mem, d, i, j).ppn);
    Phys(dropped.pages, Vm(Store(s.vm.mem, Entry(s.vm.mem, d, i).ppn, j, ZERO), s.vm.kdir, s.vm.dirs),
         dropped.fl, s.extra, s.loose)
  }

  /** Unmapping drops the entry and its reference; unmapping nothing does nothing. */
  ghost predicate Removed(s: Phys, s': Phys, d: nat, i: nat, j: nat) {
    var pte := Pte(s.vm.mem, d, i, j);
    if Present(pte) then
      && j < NENTRIES && Entry(s.vm.mem, d, i).ppn < |s.vm.mem| && pte.ppn < |s.pages| && s.pages[pte.ppn].refs >= 1
      && s' == WithoutLeaf(s, d, i, j)
    else s' == s
  }

  lemma KeptExtra(s: Phys, s1: Phys)
    requires Inv(s) && s1.vm.kdir == s.vm.kdir && s.extra <= s1.extra
    ensures forall p :: p == s1.vm.kdir || p == 0 ==> s.extra[p] >= 1
  {
  }

  /** The entry cleared, its reference not dropped yet. */
  lemma LeafCleared(s: Phys, d: nat, i: nat, j: nat)
    requires Inv(s) && UserPage(s.vm, d, i, j) && Present(Pte(s.vm.mem, d, i, j))
    ensures Entry(s.vm.mem, d, i).ppn < |s.vm.mem| && Pte(s.vm.mem, d, i, j).ppn < |s.pages|
    ensures s.pages[Pte(s.vm.mem, d, i, j).ppn].refs >= 1
    ensures var vm' := s.vm.(mem := Store(s.vm.mem, Entry(s.vm.mem, d, i).ppn, j, ZERO));
            LeafSet(s.vm, vm', d, i, j, ZERO)
              && Inv(s.(vm := vm', extra := s.extra + multiset{Pte(s.vm.mem, d, i, j).ppn as nat}))
  {
    hide Separated, WellFormed, Exact, FreeIffUnused, OnlySlotted, Store;
    LeafFacts(s, d, i, j);
    var p := Pte(s.vm.mem, d, i, j).ppn;
    LeafStore(s.vm, d, i, j, ZERO);
    var vm' := s.vm.(mem := Store(s.vm.mem, Entry(s.vm.mem, d, i).ppn, j, ZERO));
    MovedInv(s, vm', Leaf(d, i, j));
    assert s.extra - multiset{} + multiset{p as nat} == s.extra + multiset{p as nat};
  }

  lemma WithoutLeafInv(s: Phys, d: nat, i: nat, j: nat)
    requires Inv(s) && UserPage(s.vm, d, i, j) && Present(Pte(s.vm.mem, d, i, j))
    ensures Entry(s.vm.mem, d, i).ppn < |s.vm.mem| && Pte(s.vm.mem, d, i, j).ppn < |s.pages|
    ensures s.pages[Pte(s.vm.mem, d, i, j).ppn].refs >= 1
    ensures Inv(WithoutLeaf(s, d, i, j)) && LeafSet(s.vm, WithoutLeaf(s, d, i, j).vm, d, i, j, ZERO)
    ensures WithoutLeaf(s, d, i, j).vm.dirs == s.vm.dirs && WithoutLeaf(s, d, i, j).vm.kdir == s.vm.kdir
  {
    hide Inv, LeafSet, Store, Entry, Pte;
    LeafCleared(s, d, i, j);
    var p := Pte(s.vm.mem, d, i, j).ppn;
    var vm' := s.vm.(mem := Store(s.vm.mem, Entry(s.vm.mem, d, i).ppn, j, ZERO));
    var s1 := s.(vm := vm', extra := s.extra + multiset{p as nat});
    KeptExtra(s, s1);
    DroppedInv(s1, p);
    assert s1.extra - multiset{p as nat} == s.extra;
    assert WithoutLeaf(s, d, i, j) == Dropped(s1, p);
  }

  function WithLeaf(s: Phys, d: nat, i: nat, j: nat, w: Word): (r: Phys)
    requires j < NENTRIES && Entry(s.vm.mem, d, i).ppn < |s.vm.mem|
  {
    Phys(s.pages, Vm(Store(s.vm.mem, Entry(s.vm.mem, d, i).ppn, j, w), s.vm.kdir, s.vm.dirs),
         s.fl, s.extra - multiset{w.ppn}, s.loose)
  }

  lemma WithLeafInv(s: Phys, d: nat, i: nat, j: nat, w: Word)
    requires Inv(s) && UserPage(s.vm, d, i, j) && Present(Entry(s.vm.mem, d, i)) && Pte(s.vm.mem, d, i, j) == ZERO
    requires Present(w) && MayMap(s.vm, w) && s.extra[w.ppn] >= if w.ppn == 0 then 2 else 1
    ensures Entry(s.vm.mem, d, i).ppn < |s.vm.mem|
    ensures Inv(WithLeaf(s, d, i, j, w)) && LeafSet(s.vm, WithLeaf(s, d, i, j, w).vm, d, i, j, w)
  {
    hide Separated, WellFormed, Exact, FreeIffUnused, OnlySlotted;
    LeafFacts(s, d, i, j);
    LeafStore(s.vm, d, i, j, w);
    var vm' := s.vm.(mem := Store(s.vm.mem, Entry(s.vm.mem, d, i).ppn, j, w));
    MovedInv(s, vm', Leaf(d, i, j));
    assert WithLeaf(s, d, i, j, w) == s.(vm := vm', extra := s.extra - multiset{w.ppn} + multiset{});
  }

  /** `pgdir[PDX(va)] |= perm` on an entry that already grants everything. */
  function Widened(s: Phys, d: nat, i: nat, perm: Flags): (r: Phys)
    requires d < |s.vm.mem| && i < NENTRIES
  {
    var e := Entry(s.vm.mem, d, i);
    Phys(s.pages, Vm(Store(s.vm.mem, d, i, Word(e.ppn, e.flags | perm)), s.vm.kdir, s.vm.dirs), s.fl, s.extra, s.loose)
  }

  lemma WidenedInv(s: Phys, d: nat, i: nat, perm: Flags)
    requires Inv(s) && d in s.vm.dirs && i < USER_PDES && Present(Entry(s.vm.mem, d, i))
    ensures d < |s.vm.mem|
    ensures Inv(Widened(s, d, i, perm)) && TablesKept(s.vm, Widened(s, d, i, perm).vm, d, i)
  {
    hide Exact, FreeIffUnused, OnlySlotted;
    var e := Entry(s.vm.mem, d, i);
    var w := Word(e.ppn, e.flags | perm);
    LeafFacts(s, d, i, 0);
    WiderHas(e, perm);
    DirStore(s.vm, d, i, w);
    var vm' := s.vm.(mem := Store(s.vm.mem, d, i, w));
    assert Target(vm'.mem, Table(d, i)) == Target(s.vm.mem, Table(d, i));
    KeptInv(s, vm');
    assert Widened(s, d, i, perm) == s.(vm := vm');
  }

  lemma WiderHas(e: Word, perm: Flags)
    requires Present(e)
    ensures Present(Word(e.ppn, e.flags | perm))
    ensures Has(e, PTE_P | PTE_W | PTE_U) ==> Has(Word(e.ppn, e.flags | perm), PTE_P | PTE_W | PTE_U)
  {
  }

  // ---- Directories set up and torn down ----

  /** Directories other than `d` keep every entry and every page. */
  ghost predicate OthersKept(vm: Vm, vm': Vm, d: nat) {
    && (forall r, m: nat :: IsRoot(vm, r) && r != d && m < NENTRIES ==> Entry(vm'.mem, r, m) == Entry(vm.mem, r, m))
    && (forall r, m: nat, n: nat :: IsRoot(vm, r) && r != d && m < NENTRIES && n < NENTRIES ==>
          Pte(vm'.mem, r, m, n) == Pte(vm.mem, r, m, n))
  }

  /** The new directory: the kernel's, except that UVPT maps the directory itself. */
  function RootFrame(kern: Frame, p: Uint20): (f: Frame) {
    kern[UVPT_PDE := Word(p, PTE_U | PTE_P)]
  }

  function WithRoot(s: Phys, p: nat): (r: Phys)
    requires p < |s.pages| == |s.vm.mem| <= 0x10_0000 && s.vm.kdir < |s.vm.mem|
  {
    Phys(s.pages[p := PageInfo(s.pages[p].link, s.pages[p].refs + 1)],
         Vm(s.vm.mem[p := RootFrame(s.vm.mem[s.vm.kdir], p)], s.vm.kdir, s.vm.dirs + {p}),
         s.fl, s.extra, s.loose - {p})
  }

  lemma RootJoins(vm: Vm, p: nat)
    requires Separated(vm) && WellFormed(vm) && Unreferenced(vm, p) && vm.mem[p] == RootFrame(vm.mem[vm.kdir], p)
    ensures var vm' := vm.(dirs := vm.dirs + {p});
            && Separated(vm') && WellFormed(vm') && p !in vm.dirs
            && (forall i: nat :: i < USER_PDES ==> Entry(vm.mem, p, i) == ZERO)
            && (forall x :: IsSlot(vm', x) && !IsSlot(vm, x) && x != Root(p) ==> Target(vm.mem, x) == None)
  {
    var vm' := vm.(dirs := vm.dirs + {p});
    assert p !in vm.dirs by { RootSlot(vm, p); }
    forall i: nat | i < NENTRIES && i != UVPT_PDE ensures Entry(vm.mem, p, i) == Entry(vm.mem, vm.kdir, i) {}
    forall x | IsSlot(vm', x) && !IsSlot(vm, x) && x != Root(p) ensures Target(vm.mem, x) == None {
      assert x.d == p && x.i < USER_PDES && Entry(vm.mem, p, x.i) == ZERO;
    }
    forall x, x' | IsSlot(vm', x) && IsSlot(vm', x') && !x.Leaf? && x != x' && Target(vm.mem, x).Some?
      ensures Target(vm.mem, x) != Target(vm.mem, x')
    {
      if IsSlot(vm, x) && !IsSlot(vm, x') { assert Target(vm.mem, x) != Some(p); }
      if !IsSlot(vm, x) && IsSlot(vm, x') { assert Target(vm.mem, x') != Some(p); }
    }
  }

  lemma SameReferences(vm: Vm, vm': Vm, p: nat)
    requires vm' == vm.(mem := vm'.mem) && |vm'.mem| == |vm.mem| && Unreferenced(vm, p)
    requires forall x :: IsSlot(vm, x) ==> Target(vm'.mem, x) == Target(vm.mem, x)
    ensures Unreferenced(vm', p)
  {
  }

  /** The new directory filled in, its reference in hand, but not live yet. */
  lemma RootFilled(s: Phys, p: nat)
    requires Inv(s) && p in s.loose
    ensures p < |s.pages| == |s.vm.mem| <= 0x10_0000 && s.vm.kdir < |s.vm.mem| && p != s.vm.kdir && p != 0 && p !in s.fl
    ensures var s2 := Taken(s, p);
            var s3 := s2.(vm := s2.vm.(mem := s2.vm.mem[p := RootFrame(s.vm.mem[s.vm.kdir], p)]));
            && Inv(s3) && SameTranslations(s.vm, s3.vm) && Unreferenced(s3.vm, p) && s3.extra[p] == 1
            && s3.extra - multiset{p} == s.extra
  {
    LooseIsUnused(s, p);
    hide Separated, WellFormed, Exact, FreeIffUnused, OnlySlotted, Structural;
    RootEntry(s.vm, s.vm.kdir, 0);
    FreeIsUnreferenced(s, p);
    UnusedExtra(s, p);
    TakenInv(s, p);
    var s2 := Taken(s, p);
    var f := RootFrame(s.vm.mem[s.vm.kdir], p);
    DataFrame(s2.vm, p, f);
    var vm3 := s2.vm.(mem := s2.vm.mem[p := f]);
    KeptInv(s2, vm3);
    SameReferences(s2.vm, vm3, p);
  }

  lemma WithRootInv(s: Phys, p: nat)
    requires Inv(s) && p in s.loose
    ensures p < |s.pages| <= 0x10_0000 && s.vm.kdir < |s.vm.mem| && p != s.vm.kdir && p !in s.vm.dirs && p !in s.fl
    ensures Inv(WithRoot(s, p)) && OthersKept(s.vm, WithRoot(s, p).vm, p)
    ensures forall r, i: nat, j: nat :: IsRoot(s.vm, r) && i < NENTRIES && j < NENTRIES ==>
              Walk(WithRoot(s, p).vm.mem, r, i, j) == Walk(s.vm.mem, r, i, j)
    ensures forall i: nat :: i < USER_PDES ==> Entry(WithRoot(s, p).vm.mem, p, i) == ZERO
  {
    hide Inv, OthersKept, Walk, SameTranslations, Unreferenced;
    RootFilled(s, p);
    RootLive(s, p);
    var s2 := Taken(s, p);
    SameIsKept(s.vm, s2.vm.(mem := s2.vm.mem[p := RootFrame(s.vm.mem[s.vm.kdir], p)]), WithRoot(s, p).vm, p);
  }

  lemma RootLive(s: Phys, p: nat)
    requires Inv(s) && p in s.loose
    ensures p < |s.pages| == |s.vm.mem| <= 0x10_0000 && s.vm.kdir < |s.vm.mem| && p !in s.vm.dirs && Inv(WithRoot(s, p))
    ensures forall i: nat :: i < USER_PDES ==> Entry(WithRoot(s, p).vm.mem, p, i) == ZERO
  {
    hide Separated, WellFormed, Exact, FreeIffUnused, OnlySlotted, SameTranslations, Unreferenced;
    RootFilled(s, p);
    var s2 := Taken(s, p);
    var s3 := s2.(vm := s2.vm.(mem := s2.vm.mem[p := RootFrame(s.vm.mem[s.vm.kdir], p)]));
    RootJoins(s3.vm, p);
    var t := WithRoot(s, p);
    assert t == s3.(vm := s3.vm.(dirs := s3.vm.dirs + {p}), extra := s3.extra - multiset{p});
    RootJoinsInv(s3, t, p);
  }

  lemma SameIsKept(vm: Vm, vm3: Vm, vm': Vm, d: nat)
    requires SameTranslations(vm, vm3) && vm'.mem == vm3.mem
    ensures OthersKept(vm, vm', d)
    ensures forall r, i: nat, j: nat :: IsRoot(vm, r) && i < NENTRIES && j < NENTRIES ==>
              Walk(vm'.mem, r, i, j) == Walk(vm.mem, r, i, j)
  {
    hide Entry, Pte, Walk;
  }

  lemma LooseIsUnused(s: Phys, p: nat)
    requires Inv(s) && p in s.loose
    ensures p < |s.pages| && s.pages[p].refs == 0 && p !in s.fl
  {
  }

  lemma RootJoinsInv(s: Phys, t: Phys, p: nat)
    requires Inv(s) && p < |s.pages| && s.extra[p] == 1 && p != s.vm.kdir && p != 0 && p !in s.vm.dirs
    requires t == s.(vm := s.vm.(dirs := s.vm.dirs + {p}), extra := s.extra - multiset{p})
    requires Separated(t.vm) && WellFormed(t.vm)
    requires forall i: nat :: i < USER_PDES ==> Entry(s.vm.mem, p, i) == ZERO
    requires forall x :: IsSlot(t.vm, x) && !IsSlot(s.vm, x) && x != Root(p) ==> Target(s.vm.mem, x) == None
    ensures Inv(t)
  {
    forall q | 0 <= q < |t.pages| ensures t.pages[q].refs == |Holders(t.vm, q)| + t.extra[q] {
      HoldersRoot(s.vm, t.vm, p, q);
    }
  }

  /** An emptied page table leaves its directory and is freed. */
  function WithoutTable(s: Phys, d: nat, i: nat): (r: Phys)
    requires d < |s.vm.mem| && i < NENTRIES
    requires Entry(s.vm.mem, d, i).ppn < |s.pages| && s.pages[Entry(s.vm.mem, d, i).ppn].refs >= 1
  {
    var dropped := Dropped(s, Entry(s.vm.mem, d, i).ppn);
    Phys(dropped.pages, Vm(Store(s.vm.mem, d, i, ZERO), s.vm.kdir, s.vm.dirs), dropped.fl, s.extra, s.loose)
  }

  lemma WithoutTableInv(s: Phys, d: nat, i: nat)
    requires Inv(s) && d in s.vm.dirs && i < USER_PDES && Present(Entry(s.vm.mem, d, i))
    requires forall n: nat :: n < NENTRIES ==> Pte(s.vm.mem, d, i, n) == ZERO
    ensures d < |s.vm.mem| && Entry(s.vm.mem, d, i).ppn < |s.pages| && s.pages[Entry(s.vm.mem, d, i).ppn].refs >= 1
    ensures Entry(s.vm.mem, d, i).ppn !in s.fl
    ensures var t := WithoutTable(s, d, i);
            && Inv(t) && OthersKept(s.vm, t.vm, d) && Entry(t.vm.mem, d, i) == ZERO
            && (forall m: nat :: m < NENTRIES && m != i ==> Entry(t.vm.mem, d, m) == Entry(s.vm.mem, d, m))
            && (forall r, m: nat, n: nat ::
                  IsRoot(s.vm, r) && r != d && m < NENTRIES && n < NENTRIES && Walk(s.vm.mem, r, m, n).Some? ==>
                  Walk(t.vm.mem, r, m, n) == Walk(s.vm.mem, r, m, n))
  {
    hide Separated, WellFormed, Exact, FreeIffUnused, OnlySlotted, Store, Structural;
    var p := Entry(s.vm.mem, d, i).ppn;
    LeafFacts(s, d, i, 0);
    DirStore(s.vm, d, i, ZERO);
    var vm' := s.vm.(mem := Store(s.vm.mem, d, i, ZERO));
    assert Target(s.vm.mem, Table(d, i)) == Some(p as nat) && Target(vm'.mem, Table(d, i)) == None;
    MovedInv(s, vm', Table(d, i));
    var s1 := s.(vm := vm', extra := s.extra - multiset{} + multiset{p});
    HeldIsCounted(s, Table(d, i));
    DroppedInv(s1, p);
    assert s1.extra - multiset{p} == s.extra;
    assert WithoutTable(s, d, i) == Dropped(s1, p);
    SelfMapKept(s.vm, vm', d);
  }

  lemma HeldIsCounted(s: Phys, x: Slot)
    requires Inv(s) && IsSlot(s.vm, x) && Target(s.vm.mem, x).Some?
    ensures var p := Target(s.vm.mem, x).value; p < |s.pages| && s.pages[p].refs >= 1 && p !in s.fl
  {
    var p := Target(s.vm.mem, x).value;
    IsHolder(s.vm, p, x);
    assert |Holders(s.vm, p)| >= 1;
  }

  lemma SelfMapKept(vm: Vm, vm': Vm, d: nat)
    requires WellFormed(vm)
    requires forall r, m: nat :: IsRoot(vm, r) && r != d && m < NENTRIES ==> Entry(vm'.mem, r, m) == Entry(vm.mem, r, m)
    requires forall r, m: nat, n: nat :: IsRoot(vm, r) && m < NENTRIES && m != UVPT_PDE && n < NENTRIES ==>
               Pte(vm'.mem, r, m, n) == Pte(vm.mem, r, m, n)
    ensures OthersKept(vm, vm', d)
  {
    forall r, m: nat, n: nat | IsRoot(vm, r) && r != d && m < NENTRIES && n < NENTRIES
      ensures Pte(vm'.mem, r, m, n) == Pte(vm.mem, r, m, n)
    {
      if m == UVPT_PDE {
        assert SelfMapped(Entry(vm.mem, r, m), r) && Entry(vm'.mem, r, m) == Entry(vm.mem, r, m);
        assert Entry(vm'.mem, r, n) == Entry(vm.mem, r, n);
      }
    }
  }

  /** A directory with no page tables left is dropped and freed. */
  function WithoutRoot(s: Phys, d: nat): (r: Phys)
    requires d < |s.pages| && s.pages[d].refs >= 1
  {
    var dropped := Dropped(s, d);
    Phys(dropped.pages, s.vm.(dirs := s.vm.dirs - {d}), dropped.fl, s.extra, s.loose)
  }

  lemma WithoutRootInv(s: Phys, d: nat)
    requires Inv(s) && d in s.vm.dirs
    requires forall i: nat :: i < USER_PDES ==> Entry(s.vm.mem, d, i) == ZERO
    ensures d < |s.pages| && s.pages[d].refs >= 1 && d !in s.fl
    ensures Inv(WithoutRoot(s, d))
  {
    hide Separated, WellFormed, Exact, FreeIffUnused, OnlySlotted, Store, Structural;
    RootSlot(s.vm, d);
    HeldIsCounted(s, Root(d));
    var s1 := s.(vm := s.vm.(dirs := s.vm.dirs - {d}), extra := s.extra + multiset{d});
    RootLeavesInv(s, s1, d);
    DroppedInv(s1, d);
    assert s1.extra - multiset{d} == s.extra;
    assert WithoutRoot(s, d) == Dropped(s1, d);
  }

  lemma RootLeavesInv(s: Phys, t: Phys, d: nat)
    requires Inv(s) && d in s.vm.dirs
    requires forall i: nat :: i < USER_PDES ==> Entry(s.vm.mem, d, i) == ZERO
    requires t == s.(vm := s.vm.(dirs := s.vm.dirs - {d}), extra := s.extra + multiset{d})
    ensures Inv(t)
  {
    NotKernelDir(s, d);
    hide Separated, WellFormed, Exact, OnlySlotted;
    RootLeavesVm(s.vm, t.vm, d);
    RootLeavesExact(s, t, d);
    RootLeavesSlots(s.vm, t.vm, s.extra, d);
  }

  lemma RootLeavesExact(s: Phys, t: Phys, d: nat)
    requires Exact(s) && d in s.vm.dirs && d != s.vm.kdir
    requires forall i: nat :: i < USER_PDES ==> Entry(s.vm.mem, d, i) == ZERO
    requires t == s.(vm := s.vm.(dirs := s.vm.dirs - {d}), extra := s.extra + multiset{d})
    ensures Exact(t)
  {
    hide Holders, Target, IsSlot;
    assert t.vm.dirs + {d} == s.vm.dirs;
    forall q | 0 <= q < |t.pages| ensures t.pages[q].refs == |Holders(t.vm, q)| + t.extra[q] {
      HoldersRoot(t.vm, s.vm, d, q);
    }
  }

  lemma RootLeavesSlots(vm: Vm, vm': Vm, extra: multiset<nat>, d: nat)
    requires OnlySlotted(vm, extra) && vm'.mem == vm.mem
    requires forall x :: IsSlot(vm', x) ==> IsSlot(vm, x)
    requires forall x :: IsSlot(vm', x) && !x.Leaf? ==> Target(vm.mem, x) != Some(d)
    ensures OnlySlotted(vm', extra + multiset{d})
  {
    hide IsSlot, Target;
  }

  lemma RootLeavesVm(vm: Vm, vm': Vm, d: nat)
    requires Separated(vm) && WellFormed(vm) && d in vm.dirs && vm' == vm.(dirs := vm.dirs - {d})
    ensures Separated(vm') && WellFormed(vm')
    ensures forall x :: IsSlot(vm', x) ==> IsSlot(vm, x)
    ensures forall x :: IsSlot(vm', x) && !x.Leaf? ==> Target(vm.mem, x) != Some(d)
  {
    assert forall x :: IsSlot(vm', x) ==> IsSlot(vm, x);
    RootSlot(vm, d);
    forall x | IsSlot(vm', x) && !x.Leaf?
      ensures Target(vm.mem, x) != Some(d)
    {
      assert IsSlot(vm, x) && x != Root(d);
    }
  }

  lemma OthersKeptSame(vm: Vm, d: nat)
    ensures OthersKept(vm, vm, d)
  {
  }

  /** Directories may come and go around the step from `vm1` to `vm2`. */
  lemma OthersKeptFrom(vm0: Vm, vm1: Vm, vm2: Vm, d: nat)
    requires vm0.kdir == vm1.kdir && vm0.dirs == vm1.dirs
    requires (OthersKept(vm0, vm1, d) && vm2.mem == vm1.mem) || (SameTranslations(vm0, vm1) && OthersKept(vm1, vm2, d))
    ensures OthersKept(vm0, vm2, d)
  {
    assert forall r :: IsRoot(vm0, r) ==> IsRoot(vm1, r);
  }

  lemma OthersKeptTrans(vm0: Vm, vm1: Vm, vm2: Vm, d: nat)
    requires OthersKept(vm0, vm1, d) && OthersKept(vm1, vm2, d) && vm1.kdir == vm0.kdir && vm1.dirs == vm0.dirs
    ensures OthersKept(vm0, vm2, d)
  {
    assert forall r :: IsRoot(vm0, r) ==> IsRoot(vm1, r);
  }

  lemma LeafSetKeepsOthers(vm: Vm, vm': Vm, d: nat, i: nat, j: nat, w: Word)
    requires LeafSet(vm, vm', d, i, j, w)
    ensures OthersKept(vm, vm', d)
  {
  }

  /** The references to `p` that lie in the directory `d`: its mappings, its page tables, itself. */
  ghost function HeldIn(vm: Vm, d: nat, p: nat): set<Slot> {
    set x | x in Holders(vm, p) && x.d == d
  }

  lemma NotKernelDir(s: Phys, d: nat)
    requires Inv(s) && d in s.vm.dirs
    ensures d != s.vm.kdir
  {
  }

  lemma SameTargetElsewhere(vm: Vm, vm': Vm, d: nat, x: Slot)
    requires OthersKept(vm, vm', d) && IsSlot(vm, x) && x.d != d
    ensures Target(vm'.mem, x) == Target(vm.mem, x)
  {
    assert IsRoot(vm, x.d);
  }

  /** Tearing a directory down drops each page's count by exactly the references that the
      directory held, and leaves every other reference alone. */
  lemma TornDown(s: Phys, t: Phys, d: nat, p: nat)
    requires Inv(s) && Inv(t) && d in s.vm.dirs && t.vm.dirs == s.vm.dirs - {d} && t.vm.kdir == s.vm.kdir
    requires OthersKept(s.vm, t.vm, d) && t.extra == s.extra && |t.pages| == |s.pages| && p < |s.pages|
    ensures Holders(t.vm, p) == Holders(s.vm, p) - HeldIn(s.vm, d, p)
    ensures t.pages[p].refs == s.pages[p].refs - |HeldIn(s.vm, d, p)|
  {
    hide Separated, WellFormed, FreeIffUnused, OnlySlotted, Target, OthersKept;
    NotKernelDir(s, d);
    forall x ensures x in Holders(t.vm, p) <==> x in Holders(s.vm, p) && x.d != d {
      IsHolder(s.vm, p, x);
      IsHolder(t.vm, p, x);
      if IsSlot(s.vm, x) && x.d != d { SameTargetElsewhere(s.vm, t.vm, d, x); }
    }
    assert Holders(s.vm, p) == Holders(t.vm, p) + HeldIn(s.vm, d, p);
  }

  lemma AllTornDown(s: Phys, t: Phys, d: nat)
    requires Inv(s) && Inv(t) && d in s.vm.dirs && t.vm.dirs == s.vm.dirs - {d} && t.vm.kdir == s.vm.kdir
    requires OthersKept(s.vm, t.vm, d) && t.extra == s.extra && |t.pages| == |s.pages|
    ensures forall p :: 0 <= p < |s.pages| ==> t.pages[p].refs == s.pages[p].refs - |HeldIn(s.vm, d, p)|
  {
    hide Inv, OthersKept, HeldIn;
    forall p | 0 <= p < |s.pages|
      ensures t.pages[p].refs == s.pages[p].refs - |HeldIn(s.vm, d, p)|
    {
      TornDown(s, t, d, p);
    }
  }

  /** Which pages are free is determined by the references alone: equal directories, with the
      same entries, leave the same pages free. */
  lemma FreeSetDetermined(s: Phys, t: Phys, p: nat)
    requires Inv(s) && Inv(t) && |t.pages| == |s.pages| && t.extra == s.extra && t.loose == s.loose
    requires t.vm.kdir == s.vm.kdir && t.vm.dirs == s.vm.dirs
    requires forall x :: IsSlot(s.vm, x) ==> Target(t.vm.mem, x) == Target(s.vm.mem, x)
    ensures p in s.fl <==> p in t.fl
  {
    HoldersSame(s.vm, t.vm, p);
    if p in s.fl { assert p < |s.pages| && p !in s.loose; }
    if p in t.fl { assert p < |t.pages| && p !in t.loose; }
  }

  /** Giving back a page that was allocated and never referenced. */
  function Released(s: Phys, p: nat): (r: Phys)
    requires p < |s.pages|
  {
    Phys(s.pages[p := PageInfo(if s.fl == [] then None else Some(s.fl[0]), 0)], s.vm,
         [p] + s.fl, s.extra, s.loose - {p})
  }

  lemma ReleasedInv(s: Phys, p: nat)
    requires Inv(s) && p in s.loose
    ensures p < |s.pages| && s.pages[p].refs == 0 && p !in s.fl
    ensures Inv(Released(s, p))
  {
    var t := Released(s, p);
    forall q | 0 <= q < |t.pages| ensures t.pages[q].refs == |Holders(t.vm, q)| + t.extra[q] {}
  }

  // ---- The kernel's half ----

  /** No page of the kernel's half is both writable and accessible to user code. */
  ghost predicate Sealed(vm: Vm) {
    forall i: nat, j: nat :: USER_PDES <= i < NENTRIES && i != UVPT_PDE && j < NENTRIES ==>
      !(Has(Pte(vm.mem, vm.kdir, i, j), PTE_W) && Has(Pte(vm.mem, vm.kdir, i, j), PTE_U))
  }

  lemma SealedKept(vm: Vm, vm': Vm, d: nat, i: nat, j: nat, w: Word)
    requires Sealed(vm) && vm'.kdir == vm.kdir && d != vm.kdir
    requires OthersKept(vm, vm', d) || FlatSet(vm, vm', d, i, j, w) || LeafSet(vm, vm', d, i, j, w)
    ensures Sealed(vm')
  {
    assert IsRoot(vm, vm.kdir);
  }

  /** A translation that lets user code write leads to an allocated data page: to no directory,
      no page table and no free page. */
  lemma UserWritesDataOnly(s: Phys, r: nat, i: nat, j: nat)
    requires Inv(s) && Sealed(s.vm) && IsRoot(s.vm, r) && i < NENTRIES && j < NENTRIES
    requires Walk(s.vm.mem, r, i, j).Some? && Walk(s.vm.mem, r, i, j).value.write && Walk(s.vm.mem, r, i, j).value.user
    ensures var p := Walk(s.vm.mem, r, i, j).value.ppn;
            p < |s.pages| && !Structural(s.vm, p) && p !in s.fl && s.pages[p].refs >= 1 && i < USER_PDES
              && r in s.vm.dirs
  {
    if i >= USER_PDES { KernelHalf(s.vm, r, i, j); }
    assert i < USER_PDES && r in s.vm.dirs;
    LeafFacts(s, r, i, j);
  }

  lemma KernelHalf(vm: Vm, r: nat, i: nat, j: nat)
    requires WellFormed(vm) && Sealed(vm) && IsRoot(vm, r) && USER_PDES <= i < NENTRIES && j < NENTRIES
    ensures Walk(vm.mem, r, i, j).Some? ==> !(Walk(vm.mem, r, i, j).value.write && Walk(vm.mem, r, i, j).value.user)
  {
    if i == UVPT_PDE {
      assert SelfMapped(Entry(vm.mem, r, i), r);
    } else {
      assert Entry(vm.mem, r, i) == Entry(vm.mem, vm.kdir, i);
      assert Pte(vm.mem, r, i, j) == Pte(vm.mem, vm.kdir, i, j);
    }
  }

  function KernelLeaf(s: Phys, i: nat, j: nat, w: Word): (r: Phys)
    requires j < NENTRIES && Entry(s.vm.mem, s.vm.kdir, i).ppn < |s.vm.mem|
  {
    Phys(s.pages, Vm(Store(s.vm.mem, Entry(s.vm.mem, s.vm.kdir, i).ppn, j, w), s.vm.kdir, s.vm.dirs),
         s.fl, s.extra, s.loose)
  }

  /** Mappings of the kernel's half are not counted. */
  lemma KernelLeafInv(s: Phys, i: nat, j: nat, w: Word)
    requires Inv(s) && s.vm.dirs == {} && USER_PDES <= i < NENTRIES && i != UVPT_PDE && j < NENTRIES
    requires Present(Entry(s.vm.mem, s.vm.kdir, i))
    ensures Entry(s.vm.mem, s.vm.kdir, i).ppn < |s.vm.mem|
    ensures Inv(KernelLeaf(s, i, j, w)) && LeafSet(s.vm, KernelLeaf(s, i, j, w).vm, s.vm.kdir, i, j, w)
  {
    hide Separated, WellFormed, Exact, FreeIffUnused, OnlySlotted;
    LeafStore(s.vm, s.vm.kdir, i, j, w);
    var vm' := s.vm.(mem := Store(s.vm.mem, Entry(s.vm.mem, s.vm.kdir, i).ppn, j, w));
    KeptInv(s, vm');
    assert KernelLeaf(s, i, j, w) == s.(vm := vm');
  }

  lemma StoreDataInv(s: Phys, p: nat, k: nat, w: Word)
    requires Inv(s) && p < |s.pages| && !Structural(s.vm, p) && k < NENTRIES
    ensures var vm' := Vm(Store(s.vm.mem, p, k, w), s.vm.kdir, s.vm.dirs);
            Inv(s.(vm := vm')) && SameTranslations(s.vm, vm')
  {
    hide Separated, WellFormed, Exact, FreeIffUnused, OnlySlotted;
    DataFrame(s.vm, p, s.vm.mem[p][k := w]);
    KeptInv(s, s.vm.(mem := s.vm.mem[p := s.vm.mem[p][k := w]]));
  }

  // ---- Contents of data pages ----

  /** Pages that are no directory and no page table keep what they hold. */
  ghost predicate DataSame(vm: Vm, vm': Vm) {
    |vm'.mem| == |vm.mem| && forall p: nat :: p < |vm.mem| && !Structural(vm, p) ==> vm'.mem[p] == vm.mem[p]
  }

  /** So do those that are not free, when a page may be taken off the free list. */
  ghost predicate DataKept(s: Phys, s': Phys) {
    && |s'.vm.mem| == |s.vm.mem|
    && forall p: nat :: p < |s.vm.mem| && p !in s.fl && !Structural(s.vm, p) ==> s'.vm.mem[p] == s.vm.mem[p]
  }

  lemma StoreKeepsData(vm: Vm, vm': Vm, t: nat, k: nat, w: Word)
    requires t < |vm.mem| && k < NENTRIES && Structural(vm, t) && vm'.mem == Store(vm.mem, t, k, w)
    ensures DataSame(vm, vm')
  {
    hide Structural;
  }

  /** A store into the page table at (d, i), or into the directory. */
  lemma TableData(s: Phys, vm': Vm, d: nat, i: nat, k: nat, w: Word)
    requires Inv(s) && UserPage(s.vm, d, i, k) && Present(Entry(s.vm.mem, d, i))
    requires Entry(s.vm.mem, d, i).ppn < |s.vm.mem|
    requires vm'.mem == Store(s.vm.mem, Entry(s.vm.mem, d, i).ppn, k, w)
    ensures DataSame(s.vm, vm')
  {
    hide Exact, FreeIffUnused, OnlySlotted, Store, Structural;
    TableIsStructural(s.vm, d, i);
    StoreKeepsData(s.vm, vm', Entry(s.vm.mem, d, i).ppn, k, w);
  }

  lemma DirData(s: Phys, vm': Vm, d: nat, i: nat, w: Word)
    requires Inv(s) && d in s.vm.dirs && d < |s.vm.mem| && i < NENTRIES && vm'.mem == Store(s.vm.mem, d, i, w)
    ensures DataSame(s.vm, vm')
  {
    hide Exact, FreeIffUnused, OnlySlotted, Store;
    RootSlot(s.vm, d);
    StoreKeepsData(s.vm, vm', d, i, w);
  }

  lemma WithTableData(s: Phys, d: nat, i: nat)
    requires Inv(s) && s.fl != [] && s.fl[0] < |s.pages| <= 0x10_0000 && Owns(s.vm, d, i) && d < |s.vm.mem|
    requires i < NENTRIES
    ensures DataKept(s, WithTable(s, d, i))
  {
    hide Separated, WellFormed, Exact, FreeIffUnused, OnlySlotted;
    RootSlot(s.vm, d);
    assert s.fl[0] in s.fl;
  }

  lemma TwiceWritten(s: Phys, s': Phys, d: nat)
    requires d in s.fl && |s'.vm.mem| == |s.vm.mem|
    requires forall p: nat :: p < |s.vm.mem| && p != d ==> s'.vm.mem[p] == s.vm.mem[p]
    ensures DataKept(s, s')
  {
    hide Structural;
  }

  lemma DataSameTrans(vm0: Vm, vm1: Vm, vm2: Vm)
    requires DataSame(vm0, vm1) && DataSame(vm1, vm2) && forall p: nat :: !Structural(vm0, p) ==> !Structural(vm1, p)
    ensures DataSame(vm0, vm2)
  {
    hide Structural;
  }

  lemma DataKeptSame(s: Phys)
    ensures DataKept(s, s) && DataSame(s.vm, s.vm)
  {
  }

  lemma DataKeptThen(s0: Phys, s1: Phys, s2: Phys)
    requires DataKept(s0, s1) && NoNewRoles(s0, s1) && DataSame(s1.vm, s2.vm)
    ensures DataKept(s0, s2)
  {
    hide Structural;
  }

  lemma ClearKeepsRoles(s: Phys, s': Phys, d: nat, i: nat, j: nat)
    requires LeafSet(s.vm, s'.vm, d, i, j, ZERO) && s'.vm.kdir == s.vm.kdir && s'.vm.dirs == s.vm.dirs
    ensures forall p: nat :: !Structural(s.vm, p) ==> !Structural(s'.vm, p)
  {
    hide Structural, LeafSet;
    forall p: nat | !Structural(s.vm, p)
      ensures !Structural(s'.vm, p)
    {
      NoRoleAfterClear(s, s', d, i, j, p);
    }
  }

  /** The two stores with which page_insert ends. */
  lemma EnteredData(s: Phys, d: nat, i: nat, j: nat, w: Word, perm: Flags)
    requires Inv(s) && UserPage(s.vm, d, i, j) && Present(Entry(s.vm.mem, d, i))
    requires Entry(s.vm.mem, d, i).ppn < |s.vm.mem| && d < |s.vm.mem|
    requires Inv(WithLeaf(s, d, i, j, w)) && LeafSet(s.vm, WithLeaf(s, d, i, j, w).vm, d, i, j, w)
    ensures DataSame(s.vm, Widened(WithLeaf(s, d, i, j, w), d, i, perm).vm)
  {
    hide Inv, Store, Structural, LeafSet;
    var s4 := WithLeaf(s, d, i, j, w);
    var s5 := Widened(s4, d, i, perm);
    TableData(s, s4.vm, d, i, j, w);
    var e := Entry(s4.vm.mem, d, i);
    DirData(s4, s5.vm, d, i, Word(e.ppn, e.flags | perm));
    hide DataSame;
    LeafRoles(s, s4, d, i, j, w);
    DataSameTrans(s.vm, s4.vm, s5.vm);
  }

  /** Setting a page table entry makes no page a directory or a page table. */
  lemma LeafRoles(s: Phys, s': Phys, d: nat, i: nat, j: nat, w: Word)
    requires LeafSet(s.vm, s'.vm, d, i, j, w) && s'.vm.kdir == s.vm.kdir && s'.vm.dirs == s.vm.dirs
    ensures forall p: nat :: !Structural(s.vm, p) ==> !Structural(s'.vm, p)
  {
    hide Pte;
    forall p: nat | !Structural(s.vm, p)
      ensures !Structural(s'.vm, p)
    {
      forall x | IsSlot(s'.vm, x) && !x.Leaf?
        ensures Target(s'.vm.mem, x) != Some(p)
      {
        assert IsSlot(s.vm, x);
        assert x.Table? ==> IsRoot(s.vm, x.d);
      }
    }
  }

  /** Data pages keep what they hold, and no page becomes a directory or a page table. */
  ghost predicate Quiet(vm: Vm, vm': Vm) {
    DataSame(vm, vm') && forall p: nat :: !Structural(vm, p) ==> !Structural(vm', p)
  }

  lemma QuietSame(vm: Vm)
    ensures Quiet(vm, vm)
  {
  }

  lemma QuietTrans(vm0: Vm, vm1: Vm, vm2: Vm)
    requires Quiet(vm0, vm1) && Quiet(vm1, vm2)
    ensures Quiet(vm0, vm2)
  {
    hide Structural;
  }

  /** A page unmapped. */
  lemma QuietClear(s: Phys, s': Phys, d: nat, i: nat, j: nat)
    requires LeafSet(s.vm, s'.vm, d, i, j, ZERO) && s'.vm.kdir == s.vm.kdir && s'.vm.dirs == s.vm.dirs
    requires DataSame(s.vm, s'.vm)
    ensures Quiet(s.vm, s'.vm)
  {
    hide Structural, LeafSet, DataSame;
    ClearKeepsRoles(s, s', d, i, j);
  }

  /** A page table taken out of the directory. */
  lemma QuietTable(s: Phys, vm': Vm, d: nat, i: nat)
    requires Inv(s) && d in s.vm.dirs && d < |s.vm.mem| && i < USER_PDES
    requires vm' == Vm(Store(s.vm.mem, d, i, ZERO), s.vm.kdir, s.vm.dirs)
    requires OthersKept(s.vm, vm', d)
    ensures Quiet(s.vm, vm')
  {
    NotKernelDir(s, d);
    hide Inv;
    DirData(s, vm', d, i, ZERO);
    hide DataSame, Structural;
    forall p: nat | !Structural(s.vm, p)
      ensures !Structural(vm', p)
    {
      TableGone(s, vm', d, i, p);
    }
  }

  lemma TableGone(s: Phys, vm': Vm, d: nat, i: nat, p: nat)
    requires d in s.vm.dirs && d < |s.vm.mem| && d != s.vm.kdir && i < USER_PDES
    requires vm' == Vm(Store(s.vm.mem, d, i, ZERO), s.vm.kdir, s.vm.dirs)
    requires OthersKept(s.vm, vm', d) && !Structural(s.vm, p)
    ensures !Structural(vm', p)
  {
    hide Pte;
    StoreReads(s.vm.mem, d, i, ZERO);
    forall x | IsSlot(vm', x) && !x.Leaf?
      ensures Target(vm'.mem, x) != Some(p)
    {
      assert IsSlot(s.vm, x);
    }
  }

  /** A directory gone. */
  lemma QuietRoot(vm: Vm, d: nat)
    ensures Quiet(vm, Vm(vm.mem, vm.kdir, vm.dirs - {d}))
  {
    var vm' := Vm(vm.mem, vm.kdir, vm.dirs - {d});
    forall x | IsSlot(vm', x)
      ensures IsSlot(vm, x)
    {
    }
  }

  // ---- Other directories ----

  /** Changing a directory entry of `d` leaves the others as they are, self-maps included. */
  lemma TablesKeptOthers(s: Phys, vm': Vm, d: nat, i: nat)
    requires Inv(s) && TablesKept(s.vm, vm', d, i)
    ensures OthersKept(s.vm, vm', d)
  {
    hide Exact, FreeIffUnused, OnlySlotted, Separated;
    SelfMapKept(s.vm, vm', d);
  }

  lemma EnteredOthers(s: Phys, d: nat, i: nat, j: nat, w: Word, perm: Flags)
    requires UserPage(s.vm, d, i, j) && Entry(s.vm.mem, d, i).ppn < |s.vm.mem| && d < |s.vm.mem|
    requires Inv(WithLeaf(s, d, i, j, w)) && LeafSet(s.vm, WithLeaf(s, d, i, j, w).vm, d, i, j, w)
    requires TablesKept(WithLeaf(s, d, i, j, w).vm, Widened(WithLeaf(s, d, i, j, w), d, i, perm).vm, d, i)
    ensures OthersKept(s.vm, Widened(WithLeaf(s, d, i, j, w), d, i, perm).vm, d)
  {
    hide Inv, LeafSet, TablesKept, OthersKept, Store;
    var s4 := WithLeaf(s, d, i, j, w);
    LeafSetKeepsOthers(s.vm, s4.vm, d, i, j, w);
    TablesKeptOthers(s4, Widened(s4, d, i, perm).vm, d, i);
    OthersKeptTrans(s.vm, s4.vm, Widened(s4, d, i, perm).vm, d);
  }

  /** A directory that has just been set up belongs to no slot there was before. */
  lemma OthersKeptJoin(vm0: Vm, vm1: Vm, vm2: Vm, d: nat)
    requires OthersKept(vm0, vm1, d) && OthersKept(vm1, vm2, d) && vm1.kdir == vm0.kdir && vm0.dirs <= vm1.dirs
    ensures OthersKept(vm0, vm2, d)
  {
    assert forall r :: IsRoot(vm0, r) ==> IsRoot(vm1, r);
  }

  lemma DirInRange(s: Phys, d: nat)
    requires Inv(s) && d in s.vm.dirs
    ensures d < |s.vm.mem| == |s.pages| <= 0x10_0000 && s.extra[0] >= 1
  {
  }
}
