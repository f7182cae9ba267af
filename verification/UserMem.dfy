/** user_mem_check: what its page-by-page test says about the bytes of a range, and exactly when
    that is the right answer. */
module UserMem {
  import opened Paging

  /** The user may access the byte at `a` with `perm`: the processor grants it at both levels, and
      the entry has those bits of `perm` that the processor does not check. */
  predicate Accessible(mem: seq<Frame>, d: nat, a: nat, perm: Flags)
    requires a < VA_LIMIT
  {
    var x := Walk(mem, d, Pdx(a), Ptx(a));
    && a < ULIM && x.Some?
    && (perm & PTE_W != 0 ==> x.value.write) && (perm & PTE_U != 0 ==> x.value.user)
    && Has(Pte(mem, d, Pdx(a), Ptx(a)), perm & 0xFF9)
  }

  /** What user_mem_check tests: the page table entry alone. */
  predicate ByteOk(mem: seq<Frame>, d: nat, a: nat, perm: Flags)
    requires a < VA_LIMIT
  {
    a < ULIM && Present(Pte(mem, d, Pdx(a), Ptx(a))) && Has(Pte(mem, d, Pdx(a), Ptx(a)), perm)
  }

  /** Byte `k` of the range, in the processor's 32-bit arithmetic. */
  function At(va: nat, k: nat): (a: nat)
    ensures a < VA_LIMIT
  {
    (va + k) % VA_LIMIT
  }

  ghost predicate RangeOk(mem: seq<Frame>, d: nat, va: nat, len: nat, perm: Flags) {
    forall k :: 0 <= k < len ==> Accessible(mem, d, At(va, k), perm)
  }

  /** The test, for every byte of the range. */
  ghost predicate EntriesOk(mem: seq<Frame>, d: nat, va: nat, len: nat, perm: Flags) {
    forall k :: 0 <= k < len ==> ByteOk(mem, d, At(va, k), perm)
  }

  /** The test is right except at the self-map: there the page table entry is a directory entry,
      which grants all, and the directory entry is the self-map, which grants no writing. */
  lemma AccessibleIs(vm: Vm, d: nat, a: nat, perm: Flags)
    requires Separated(vm) && WellFormed(vm) && d in vm.dirs && a < VA_LIMIT
    ensures Accessible(vm.mem, d, a, perm) <==>
            ByteOk(vm.mem, d, a, perm) && !(perm & PTE_W != 0 && Pdx(a) == UVPT_PDE)
  {
    hide Separated, WellFormed, Walk, Entry, Pte, Has, Present;
    Bits(Pte(vm.mem, d, Pdx(a), Ptx(a)), perm);
    WalkGrants(vm, d, Pdx(a), Ptx(a));
  }

  /** Above each entry but those of the self-map stands a directory entry that grants all. */
  lemma WalkGrants(vm: Vm, d: nat, i: nat, j: nat)
    requires Separated(vm) && WellFormed(vm) && d in vm.dirs && i < NENTRIES && j < NENTRIES
    ensures var x, pte := Walk(vm.mem, d, i, j), Pte(vm.mem, d, i, j);
            && (x.Some? <==> Present(pte))
            && (x.Some? ==> (x.value.user <==> Has(pte, PTE_U)))
            && (x.Some? ==> (x.value.write <==> Has(pte, PTE_W) && i != UVPT_PDE))
  {
    hide Separated;
    var pde := Entry(vm.mem, d, i);
    if i == UVPT_PDE {
      assert SelfMapped(pde, d);
    } else if Present(pde) {
      if i >= USER_PDES { assert pde == Entry(vm.mem, vm.kdir, i); }
      FullAccess(pde);
    }
  }

  lemma Bits(w: Word, perm: Flags)
    ensures Has(w, perm) <==>
            Has(w, perm & 0xFF9) && (perm & PTE_W != 0 ==> Has(w, PTE_W)) && (perm & PTE_U != 0 ==> Has(w, PTE_U))
  {
  }

  lemma SelfMapIs(a: nat)
    requires a < ULIM
    ensures Pdx(a) == UVPT_PDE <==> UVPT <= a
  {
  }

  /** Some byte of a range that ends below ULIM lies in the self-map. */
  predicate Reaches(va: nat, len: nat) {
    0 < len && va + len > UVPT
  }

  lemma RangeIs(vm: Vm, d: nat, va: nat, len: nat, perm: Flags)
    requires Separated(vm) && WellFormed(vm) && d in vm.dirs && va < VA_LIMIT && len < VA_LIMIT
    ensures RangeOk(vm.mem, d, va, len, perm) <==>
            EntriesOk(vm.mem, d, va, len, perm) && !(perm & PTE_W != 0 && Reaches(va, len))
  {
    hide ByteOk, Accessible, Separated, WellFormed;
    forall k | 0 <= k < len
      ensures Accessible(vm.mem, d, At(va, k), perm) <==>
              ByteOk(vm.mem, d, At(va, k), perm) && !(perm & PTE_W != 0 && Pdx(At(va, k)) == UVPT_PDE)
    {
      AccessibleIs(vm, d, At(va, k), perm);
    }
    if EntriesOk(vm.mem, d, va, len, perm) && len > 0 {
      NoWrap(vm.mem, d, va, len, perm);
      forall k | 0 <= k < len ensures Pdx(At(va, k)) == UVPT_PDE <==> UVPT <= va + k {
        SelfMapIs(va + k);
      }
      assert At(va, len - 1) == va + len - 1;
    }
  }

  lemma NoWrap(mem: seq<Frame>, d: nat, va: nat, len: nat, perm: Flags)
    requires va < VA_LIMIT && 0 < len < VA_LIMIT && EntriesOk(mem, d, va, len, perm)
    ensures va + len <= ULIM && forall k :: 0 <= k < len ==> At(va, k) == va + k
  {
    assert ByteOk(mem, d, At(va, 0), perm) && va < ULIM;
    var k := if va + len > ULIM then ULIM - va else 0;
    assert ByteOk(mem, d, At(va, k), perm);
  }

  // ROUNDDOWN and ROUNDUP of inc/types.h, on uint32_t
  function RoundDown(a: nat): (r: nat)
    ensures r <= a < r + PGSIZE && r % PGSIZE == 0
  {
    a - a % PGSIZE
  }

  function RoundUp(a: nat): nat {
    RoundDown((a + PGSIZE - 1) % VA_LIMIT)
  }

  function End(va: nat, len: nat): nat {
    RoundUp((va + len) % VA_LIMIT)
  }

  /** What the loop establishes when it runs to its end. */
  ghost predicate PagesOk(mem: seq<Frame>, d: nat, va: nat, len: nat, perm: Flags)
    requires va < VA_LIMIT
  {
    forall i :: RoundDown(va) <= i < End(va, len) && i % PGSIZE == 0 ==> ByteOk(mem, d, i, perm)
  }

  /** All bytes of a page have its indices. */
  lemma SameIndices(a: nat)
    requires a < VA_LIMIT
    ensures Pdx(RoundDown(a)) == Pdx(a) && Ptx(RoundDown(a)) == Ptx(a)
  {
    var n := a / PGSIZE;
    IndicesOf(n, a % PGSIZE);
    IndicesOf(n, 0);
    assert a == n * PGSIZE + a % PGSIZE;
  }

  lemma IndicesOf(n: nat, offset: nat)
    requires offset < PGSIZE && n < 0x10_0000
    ensures Pdx(n * PGSIZE + offset) == n / NENTRIES && Ptx(n * PGSIZE + offset) == n % NENTRIES
  {
    assert (n * PGSIZE + offset) / PGSIZE == n;
    assert (n * PGSIZE + offset) / PTSIZE == n / NENTRIES by {
      var q, r := n / NENTRIES, n % NENTRIES;
      assert n * PGSIZE + offset == q * PTSIZE + (r * PGSIZE + offset);
    }
  }

  /** All bytes of a page get the same answer. */
  lemma SamePage(mem: seq<Frame>, d: nat, a: nat, perm: Flags)
    requires a < VA_LIMIT
    ensures ByteOk(mem, d, a, perm) == ByteOk(mem, d, RoundDown(a), perm)
  {
    SameIndices(a);
  }

  /** Without wrap-around, testing the pages is testing the bytes. */
  lemma PagesAreEntries(mem: seq<Frame>, d: nat, va: nat, len: nat, perm: Flags)
    requires 0 < len && va + len <= VA_LIMIT - PGSIZE
    ensures PagesOk(mem, d, va, len, perm) <==> EntriesOk(mem, d, va, len, perm)
  {
    hide ByteOk;
    if PagesOk(mem, d, va, len, perm) {
      forall k | 0 <= k < len ensures ByteOk(mem, d, At(va, k), perm) {
        InPages(va, len, k);
        SamePage(mem, d, va + k, perm);
      }
    }
    if EntriesOk(mem, d, va, len, perm) {
      forall i | RoundDown(va) <= i < End(va, len) && i % PGSIZE == 0 ensures ByteOk(mem, d, i, perm) {
        var a := if i < va then va else i;
        FirstOf(va, len, i);
        assert ByteOk(mem, d, At(va, a - va), perm);
        SamePage(mem, d, a, perm);
      }
    }
  }

  /** Without wrap-around, and for writing below the self-map, checking the pages is checking the bytes. */
  lemma PagesAreBytes(vm: Vm, d: nat, va: nat, len: nat, perm: Flags)
    requires Separated(vm) && WellFormed(vm) && d in vm.dirs
    requires 0 < len && va + len <= VA_LIMIT - PGSIZE && (perm & PTE_W == 0 || va + len <= UVPT)
    ensures PagesOk(vm.mem, d, va, len, perm) <==> RangeOk(vm.mem, d, va, len, perm)
  {
    hide PagesOk, RangeOk, EntriesOk, Separated, WellFormed;
    PagesAreEntries(vm.mem, d, va, len, perm);
    RangeIs(vm, d, va, len, perm);
  }

  lemma InPages(va: nat, len: nat, k: nat)
    requires k < len && va + len <= VA_LIMIT - PGSIZE
    ensures At(va, k) == va + k && RoundDown(va) <= RoundDown(va + k) < End(va, len)
  {
  }

  lemma EndIs(va: nat, len: nat)
    requires va + len <= VA_LIMIT - PGSIZE
    ensures va + len <= End(va, len) < va + len + PGSIZE && End(va, len) % PGSIZE == 0
  {
  }

  /** The first byte of the range on the page at `i`. */
  lemma FirstOf(va: nat, len: nat, i: nat)
    requires 0 < len && va + len <= VA_LIMIT - PGSIZE && RoundDown(va) <= i < End(va, len) && i % PGSIZE == 0
    ensures var a := if i < va then va else i; va <= a < va + len && RoundDown(a) == i && At(va, a - va) == a
  {
    EndIs(va, len);
    var n, m := i / PGSIZE, va / PGSIZE;
    assert i == n * PGSIZE && RoundDown(va) == m * PGSIZE;
  }

  /** The pages answer for the bytes, except where the 32-bit sum `va + len` rounds up past the top of
      the address space: then only the page of `va` is looked at, if that.  The check also looks at
      the page of an empty range that starts inside one. */
  predicate Guarded(mem: seq<Frame>, d: nat, va: nat, len: nat, perm: Flags)
    requires va < VA_LIMIT
  {
    if len == 0 then va % PGSIZE == 0 || va > VA_LIMIT - PGSIZE || ByteOk(mem, d, va, perm)
    else
      || va + len <= VA_LIMIT - PGSIZE
      || (va < VA_LIMIT - PGSIZE && len > VA_LIMIT - va % PGSIZE && !ByteOk(mem, d, va, perm))
  }

  lemma PagesAreEntriesIff(mem: seq<Frame>, d: nat, va: nat, len: nat, perm: Flags)
    requires va < VA_LIMIT && len < VA_LIMIT
    ensures (PagesOk(mem, d, va, len, perm) <==> EntriesOk(mem, d, va, len, perm)) <==> Guarded(mem, d, va, len, perm)
  {
    hide ByteOk;
    SamePage(mem, d, va, perm);
    if len == 0 {
      EndOfEmpty(va);
    } else if va + len <= VA_LIMIT - PGSIZE {
      PagesAreEntries(mem, d, va, len, perm);
    } else {
      EndWraps(va, len);
      var k := if va + len <= VA_LIMIT then len - 1 else VA_LIMIT - 1 - va;
      TopIsKernel(mem, d, At(va, k), perm);
    }
  }

  /** A range for writing that reaches the self-map and passes: each of its entries grants writing, and
      the directory entry above those of the self-map does not. */
  ghost predicate WritesTables(mem: seq<Frame>, d: nat, va: nat, len: nat, perm: Flags)
    requires va < VA_LIMIT
  {
    perm & PTE_W != 0 && Reaches(va, len) && PagesOk(mem, d, va, len, perm)
  }

  lemma EmptyOk(mem: seq<Frame>, d: nat, va: nat, perm: Flags)
    ensures EntriesOk(mem, d, va, 0, perm)
  {
  }

  lemma WithinIsGuarded(mem: seq<Frame>, d: nat, va: nat, len: nat, perm: Flags)
    requires va < VA_LIMIT && 0 < len && va + len <= ULIM
    ensures Guarded(mem, d, va, len, perm)
  {
  }

  /** The range passes the check exactly when every byte may be accessed, if and only if neither the
      rounding nor the self-map is in the way. */
  lemma CheckIsRightIff(vm: Vm, d: nat, va: nat, len: nat, perm: Flags)
    requires Separated(vm) && WellFormed(vm) && d in vm.dirs && va < VA_LIMIT && len < VA_LIMIT
    ensures (PagesOk(vm.mem, d, va, len, perm) <==> RangeOk(vm.mem, d, va, len, perm)) <==>
            Guarded(vm.mem, d, va, len, perm) && !WritesTables(vm.mem, d, va, len, perm)
  {
    hide PagesOk, RangeOk, EntriesOk, Guarded, Separated, WellFormed;
    PagesAreEntriesIff(vm.mem, d, va, len, perm);
    RangeIs(vm, d, va, len, perm);
    if len > 0 && EntriesOk(vm.mem, d, va, len, perm) {
      NoWrap(vm.mem, d, va, len, perm);
      WithinIsGuarded(vm.mem, d, va, len, perm);
    } else if len == 0 {
      EmptyOk(vm.mem, d, va, perm);
    }
  }

  /** In the page of the self-map that shows a page table: a check for writing passes, and the
      processor refuses the store. */
  lemma SelfMapPasses(vm: Vm, d: nat, k: nat)
    requires Separated(vm) && WellFormed(vm) && d in vm.dirs && k < USER_PDES && Present(Entry(vm.mem, d, k))
    ensures var va := PgAddr(UVPT_PDE, k);
            && PagesOk(vm.mem, d, va, 4, PTE_U | PTE_W) && !RangeOk(vm.mem, d, va, 4, PTE_U | PTE_W)
            && Walk(vm.mem, d, UVPT_PDE, k).Some? && !Walk(vm.mem, d, UVPT_PDE, k).value.write
  {
    var va, perm := PgAddr(UVPT_PDE, k), PTE_U | PTE_W;
    assert SelfMapped(Entry(vm.mem, d, UVPT_PDE), d);
    FullAccess(Entry(vm.mem, d, k));
    assert Pte(vm.mem, d, UVPT_PDE, k) == Entry(vm.mem, d, k);
    assert ByteOk(vm.mem, d, va, perm);
    InFirst(vm.mem, d, va, perm);
    RangeIs(vm, d, va, 4, perm);
  }

  /** A word at the start of a page passes when the page does. */
  lemma InFirst(mem: seq<Frame>, d: nat, va: nat, perm: Flags)
    requires va % PGSIZE == 0 && va < ULIM && ByteOk(mem, d, va, perm)
    ensures PagesOk(mem, d, va, 4, perm)
  {
    hide ByteOk;
    forall i | RoundDown(va) <= i < End(va, 4) && i % PGSIZE == 0 ensures i == va {
      var n := va / PGSIZE;
      assert va == n * PGSIZE;
    }
  }

  lemma EndOfEmpty(va: nat)
    requires va < VA_LIMIT
    ensures RoundDown(va) < End(va, 0) <==> va % PGSIZE != 0 && va <= VA_LIMIT - PGSIZE
    ensures RoundDown(va) < End(va, 0) ==> End(va, 0) == RoundDown(va) + PGSIZE
  {
  }

  lemma EndWraps(va: nat, len: nat)
    requires va < VA_LIMIT && len < VA_LIMIT && va + len > VA_LIMIT - PGSIZE
    ensures RoundDown(va) < End(va, len) <==> va < VA_LIMIT - PGSIZE && len > VA_LIMIT - va % PGSIZE
    ensures RoundDown(va) < End(va, len) ==> End(va, len) == RoundDown(va) + PGSIZE
  {
  }

  lemma TopIsKernel(mem: seq<Frame>, d: nat, a: nat, perm: Flags)
    requires VA_LIMIT - PGSIZE <= a < VA_LIMIT
    ensures !ByteOk(mem, d, a, perm)
  {
  }

  /** A range at the top of the address space, none of it accessible, that passes the check. */
  lemma WrappingRangePasses(mem: seq<Frame>, d: nat)
    ensures PagesOk(mem, d, 0xFFFF_F000, 0x1000, PTE_U) && !RangeOk(mem, d, 0xFFFF_F000, 0x1000, PTE_U)
  {
    assert !Accessible(mem, d, At(0xFFFF_F000, 0), PTE_U);
  }

  ghost predicate OkUpTo(mem: seq<Frame>, d: nat, va: nat, i: nat, perm: Flags) {
    forall m :: RoundDown(va) <= m < i && m % PGSIZE == 0 ==> m < VA_LIMIT && ByteOk(mem, d, m, perm)
  }

  lemma OkAtStart(mem: seq<Frame>, d: nat, va: nat, perm: Flags)
    ensures OkUpTo(mem, d, va, RoundDown(va), perm)
  {
  }

  lemma OkNext(mem: seq<Frame>, d: nat, va: nat, i: nat, perm: Flags)
    requires OkUpTo(mem, d, va, i, perm) && i % PGSIZE == 0 && i < VA_LIMIT && ByteOk(mem, d, i, perm)
    ensures OkUpTo(mem, d, va, i + PGSIZE, perm)
  {
    hide ByteOk;
    forall m | RoundDown(va) <= m < i + PGSIZE && m % PGSIZE == 0 ensures m < VA_LIMIT && ByteOk(mem, d, m, perm) {
      assert m < i || m == i;
    }
  }

  lemma OkToEnd(mem: seq<Frame>, d: nat, va: nat, len: nat, i: nat, perm: Flags)
    requires va < VA_LIMIT && OkUpTo(mem, d, va, i, perm) && i >= End(va, len)
    ensures PagesOk(mem, d, va, len, perm)
  {
  }

  /** The first page that fails gives the first byte that may not be accessed. */
  lemma FirstBad(mem: seq<Frame>, d: nat, va: nat, len: nat, i: nat, perm: Flags)
    requires va < VA_LIMIT && OkUpTo(mem, d, va, i, perm) && RoundDown(va) <= i < End(va, len) && i % PGSIZE == 0
    requires i < VA_LIMIT && !ByteOk(mem, d, i, perm)
    ensures !PagesOk(mem, d, va, len, perm)
    ensures var addr := if i < va then va else i;
            && !ByteOk(mem, d, addr, perm)
            && (forall a :: va <= a < addr ==> ByteOk(mem, d, a, perm))
            && (0 < len && va + len <= VA_LIMIT - PGSIZE ==> addr < va + len)
  {
    hide ByteOk, End;
    var addr := if i < va then va else i;
    SamePage(mem, d, addr, perm);
    forall a | va <= a < addr ensures ByteOk(mem, d, a, perm) { SamePage(mem, d, a, perm); }
    if 0 < len && va + len <= VA_LIMIT - PGSIZE { FirstOf(va, len, i); }
  }
}
