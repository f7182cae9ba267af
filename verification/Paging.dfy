/** The 32-bit paging format as the kernel uses it (Intel SDM volume 3A, section 4.3), the
    places that hold a reference to a physical page, and what one store into a page directory
    or a page table does to them.  Everything here is a value: a `Vm` is the contents of
    physical memory together with the live page directories. */
module Paging {
  import opened Options


  const PGSIZE := 4096
  const PTSIZE := 0x40_0000
  const NENTRIES := 1024        // entries in a page directory and in a page table
  const UTOP := 0xEEC0_0000
  const ULIM := 0xEF80_0000
  const UVPT := 0xEF40_0000
  const VA_LIMIT := 0x1_0000_0000

  const USER_PDES := 955        // PDX(UTOP)
  const UVPT_PDE := 957         // PDX(UVPT)

  type Flags = bv12
  const PTE_P: Flags := 0x001
  const PTE_W: Flags := 0x002
  const PTE_U: Flags := 0x004

  type Uint20 = n: nat | n < 0x10_0000

  /** A 32-bit word of physical memory, split the way the hardware reads an entry: a page
      number and twelve flag bits. */
  datatype Word = Word(ppn: Uint20, flags: Flags)
  const ZERO := Word(0, 0)

  /** The contents of one physical page. */
  type Frame = f: seq<Word> | |f| == NENTRIES witness seq(NENTRIES, _ => ZERO)
  function ZeroFrame(): (f: Frame)
    ensures forall k :: 0 <= k < NENTRIES ==> f[k] == ZERO
  {
    seq(NENTRIES, _ => ZERO)
  }

  function Pdx(va: nat): (i: nat)
    requires va < VA_LIMIT
    ensures i < NENTRIES
  {
    va / PTSIZE
  }

  function Ptx(va: nat): (j: nat)
    ensures j < NENTRIES
  {
    va / PGSIZE % NENTRIES
  }

  function PgAddr(i: nat, j: nat): (va: nat)
    requires i < NENTRIES && j < NENTRIES
    ensures va < VA_LIMIT && va % PGSIZE == 0 && Pdx(va) == i && Ptx(va) == j
  {
    i * PTSIZE + j * PGSIZE
  }

  predicate Has(w: Word, bits: Flags) {
    w.flags & bits == bits
  }

  predicate Present(w: Word) {
    Has(w, PTE_P)
  }

  /** Bit 0 is presence, bit 1 writing and bit 2 access by user code (Intel SDM volume 3A, section 4.3). */
  lemma EntryBits(w: Word)
    ensures (Has(w, PTE_P) <==> w.flags & 1 == 1)
    ensures (Has(w, PTE_W) <==> (w.flags >> 1) & 1 == 1)
    ensures (Has(w, PTE_U) <==> (w.flags >> 2) & 1 == 1)
  {
  }

  /** Entry `k` of the page at `p`; zero outside physical memory. */
  function Entry(mem: seq<Frame>, p: nat, k: nat): Word {
    if p < |mem| && k < NENTRIES then mem[p][k] else ZERO
  }

  /** The page table entry that the directory `d` gives for the page (i, j), zero when there is
      no page table. */
  function Pte(mem: seq<Frame>, d: nat, i: nat, j: nat): Word {
    var pde := Entry(mem, d, i);
    if Present(pde) then Entry(mem, pde.ppn, j) else ZERO
  }

  /** Physical memory, the kernel's page directory and the directories of live environments. */
  datatype Vm = Vm(mem: seq<Frame>, kdir: nat, dirs: set<nat>)

  /** A place that holds a counted reference to a physical page: an environment's `env_pgdir`,
      a directory entry naming a page table, or a user page table entry. */
  datatype Slot =
    | Root(d: nat)
    | Table(d: nat, i: nat)
    | Leaf(d: nat, i: nat, j: nat)

  ghost function Slots(vm: Vm): set<Slot> {
    (set d | d in vm.dirs :: Root(d)) +
    (set d, i | d in vm.dirs && 0 <= i < USER_PDES :: Table(d, i)) +
    (set i | USER_PDES <= i < NENTRIES && i != UVPT_PDE :: Table(vm.kdir, i)) +
    (set d, i, j | d in vm.dirs && 0 <= i < USER_PDES && 0 <= j < NENTRIES :: Leaf(d, i, j))
  }

  ghost predicate IsSlot(vm: Vm, s: Slot) {
    match s
    case Root(d) => d in vm.dirs
    case Table(d, i) =>
      || (d in vm.dirs && i < USER_PDES)
      || (d == vm.kdir && USER_PDES <= i < NENTRIES && i != UVPT_PDE)
    case Leaf(d, i, j) => d in vm.dirs && i < USER_PDES && j < NENTRIES
  }

  lemma SlotsAre(vm: Vm, s: Slot)
    ensures s in Slots(vm) <==> IsSlot(vm, s)
  {
  }

  /** The page that a slot refers to. */
  function Target(mem: seq<Frame>, s: Slot): Option<nat> {
    match s
    case Root(d) => Some(d)
    case Table(d, i) => if Present(Entry(mem, d, i)) then Some(Entry(mem, d, i).ppn as nat) else None
    case Leaf(d, i, j) => if Present(Pte(mem, d, i, j)) then Some(Pte(mem, d, i, j).ppn as nat) else None
  }

  /** All the references to the physical page `p`. */
  ghost function Holders(vm: Vm, p: nat): set<Slot> {
    set s | s in Slots(vm) && Target(vm.mem, s) == Some(p)
  }

  /** Page `p` is used as a page directory or a page table. */
  ghost predicate Structural(vm: Vm, p: nat) {
    p == vm.kdir || exists s :: IsSlot(vm, s) && !s.Leaf? && Target(vm.mem, s) == Some(p)
  }

  /** Pages serve one purpose at a time: a page used as a directory or as a page table has
      exactly one reference, and is never mapped as data. */
  ghost predicate Separated(vm: Vm) {
    && vm.kdir < |vm.mem| <= 0x10_0000 && vm.kdir !in vm.dirs
    && (forall d :: d in vm.dirs ==> d < |vm.mem|)
    && (forall s :: IsSlot(vm, s) && Target(vm.mem, s).Some? ==>
          Target(vm.mem, s).value < |vm.mem| && Target(vm.mem, s).value != vm.kdir)
    && (forall s, s' :: IsSlot(vm, s) && IsSlot(vm, s') && !s.Leaf? && s != s' && Target(vm.mem, s).Some? ==>
          Target(vm.mem, s) != Target(vm.mem, s'))
  }

  /** Entries are zero or present, page tables are reachable with full permission, and the half
      above UTOP is the kernel's, except for the self-map at UVPT. */
  ghost predicate WellFormed(vm: Vm) {
    && (forall d, i: nat :: d in vm.dirs && i < USER_PDES ==>
          Entry(vm.mem, d, i) == ZERO || Has(Entry(vm.mem, d, i), PTE_P | PTE_W | PTE_U))
    && (forall d, i: nat, j: nat :: d in vm.dirs && i < USER_PDES && j < NENTRIES ==>
          Pte(vm.mem, d, i, j) == ZERO || Present(Pte(vm.mem, d, i, j)))
    && (forall i: nat :: i < USER_PDES ==> Entry(vm.mem, vm.kdir, i) == ZERO)
    && (forall i: nat :: USER_PDES <= i < NENTRIES && i != UVPT_PDE ==>
          Entry(vm.mem, vm.kdir, i) == ZERO || Has(Entry(vm.mem, vm.kdir, i), PTE_P | PTE_W | PTE_U))
    && (forall d, i: nat :: d in vm.dirs && USER_PDES <= i < NENTRIES && i != UVPT_PDE ==>
          Entry(vm.mem, d, i) == Entry(vm.mem, vm.kdir, i))
    && (forall d :: IsRoot(vm, d) ==> SelfMapped(Entry(vm.mem, d, UVPT_PDE), d))
  }

  ghost predicate IsRoot(vm: Vm, d: nat) {
    d == vm.kdir || d in vm.dirs
  }

  predicate SelfMapped(w: Word, d: nat) {
    w.ppn == d && w.flags == PTE_P | PTE_U
  }

  /** What the hardware finds for the page numbered `v`: Intel SDM volume 3A, section 4.6, both
      levels must grant a permission for the page to have it. */
  datatype Xlat = Xlat(ppn: nat, write: bool, user: bool)

  function Walk(mem: seq<Frame>, root: nat, i: nat, j: nat): Option<Xlat> {
    var pde, pte := Entry(mem, root, i), Pte(mem, root, i, j);
    if Present(pte) then Some(Xlat(pte.ppn, Has(pde, PTE_W) && Has(pte, PTE_W), Has(pde, PTE_U) && Has(pte, PTE_U)))
    else None
  }

  lemma FullAccess(w: Word)
    requires Has(w, PTE_P | PTE_W | PTE_U)
    ensures Has(w, PTE_P) && Has(w, PTE_W) && Has(w, PTE_U)
  {
  }

  lemma RootEntry(vm: Vm, d: nat, i: nat)
    requires Separated(vm) && WellFormed(vm) && IsRoot(vm, d) && i < NENTRIES
    ensures d < |vm.mem| <= 0x10_0000 && (Entry(vm.mem, d, i) == ZERO || Present(Entry(vm.mem, d, i)))
  {
    if d in vm.dirs && i < USER_PDES && Entry(vm.mem, d, i) != ZERO {
      FullAccess(Entry(vm.mem, d, i));
    } else {
      assert i >= USER_PDES ==> Entry(vm.mem, vm.kdir, i) == ZERO || Present(Entry(vm.mem, vm.kdir, i));
    }
  }

  // ---- Storing into physical memory ----

  function Store(mem: seq<Frame>, p: nat, k: nat, w: Word): (r: seq<Frame>)
    requires p < |mem| && k < NENTRIES
    ensures |r| == |mem|
  {
    mem[p := mem[p][k := w]]
  }

  lemma StoreReads(mem: seq<Frame>, p: nat, k: nat, w: Word)
    requires p < |mem| && k < NENTRIES
    ensures forall q, m :: Entry(Store(mem, p, k, w), q, m) == if q == p && m == k then w else Entry(mem, q, m)
  {
  }

  lemma RootSlot(vm: Vm, d: nat)
    ensures d in vm.dirs ==> IsSlot(vm, Root(d)) && Target(vm.mem, Root(d)) == Some(d)
  {
  }

  /** Every root, in any of its halves, finds its page tables in structural pages. */
  lemma TableIsStructural(vm: Vm, r: nat, i: nat)
    requires Separated(vm) && WellFormed(vm) && IsRoot(vm, r) && i < NENTRIES && Present(Entry(vm.mem, r, i))
    ensures Structural(vm, r) && Structural(vm, Entry(vm.mem, r, i).ppn)
  {
    if r in vm.dirs {
      assert IsSlot(vm, Root(r)) && Target(vm.mem, Root(r)) == Some(r);
    }
    if i != UVPT_PDE {
      if i < USER_PDES {
        assert IsSlot(vm, Table(r, i)) && Target(vm.mem, Table(r, i)).Some?;
      } else {
        assert IsSlot(vm, Table(vm.kdir, i)) && Target(vm.mem, Table(vm.kdir, i)).Some?;
      }
    }
  }

  /** Changing a page that is no directory and no page table changes no translation. */
  lemma DataFrame(vm: Vm, p: nat, f: Frame)
    requires Separated(vm) && WellFormed(vm) && p < |vm.mem| && !Structural(vm, p)
    ensures var vm' := vm.(mem := vm.mem[p := f]);
            && Separated(vm') && WellFormed(vm')
            && (forall s :: IsSlot(vm, s) ==> Target(vm'.mem, s) == Target(vm.mem, s))
            && (forall r, i: nat :: IsRoot(vm, r) && i < NENTRIES ==> Entry(vm'.mem, r, i) == Entry(vm.mem, r, i))
            && (forall r, i: nat, j: nat :: IsRoot(vm, r) && i < NENTRIES && j < NENTRIES ==>
                  Pte(vm'.mem, r, i, j) == Pte(vm.mem, r, i, j) && Walk(vm'.mem, r, i, j) == Walk(vm.mem, r, i, j))
  {
    var vm' := vm.(mem := vm.mem[p := f]);
    forall r, i: nat | IsRoot(vm, r) && i < NENTRIES
      ensures Entry(vm'.mem, r, i) == Entry(vm.mem, r, i)
      ensures Present(Entry(vm.mem, r, i)) ==> Entry(vm.mem, r, i).ppn != p
    {
      if r in vm.dirs {
        assert IsSlot(vm, Root(r)) && Target(vm.mem, Root(r)) == Some(r);
      }
      if Present(Entry(vm.mem, r, i)) { TableIsStructural(vm, r, i); }
    }
    forall r, i: nat, j: nat | IsRoot(vm, r) && i < NENTRIES && j < NENTRIES
      ensures Pte(vm'.mem, r, i, j) == Pte(vm.mem, r, i, j)
    {
      assert Entry(vm'.mem, r, i) == Entry(vm.mem, r, i);
    }
    forall s | IsSlot(vm, s)
      ensures Target(vm'.mem, s) == Target(vm.mem, s)
    {
      match s
      case Root(d) =>
      case Table(d, i) => assert IsRoot(vm, d) && i < NENTRIES;
      case Leaf(d, i, j) => assert IsRoot(vm, d) && i < NENTRIES;
    }
  }

  /** The directory entry (d, i) may be changed: it names a page table of the directory's own. */
  ghost predicate Owns(vm: Vm, d: nat, i: nat) {
    IsSlot(vm, Table(d, i)) && (d == vm.kdir ==> vm.dirs == {})
  }

  /** A page table is found through one directory entry only. */
  lemma TableOwner(vm: Vm, d: nat, i: nat, r: nat, i': nat)
    requires Separated(vm) && WellFormed(vm) && Owns(vm, d, i) && IsRoot(vm, r) && i' < NENTRIES
    requires Present(Entry(vm.mem, d, i)) && Present(Entry(vm.mem, r, i'))
    requires Entry(vm.mem, d, i).ppn == Entry(vm.mem, r, i').ppn
    ensures r == d && i' == i
  {
    assert Target(vm.mem, Table(d, i)) == Some(Entry(vm.mem, d, i).ppn as nat);
    if i' == UVPT_PDE {
      RootSlot(vm, r);
      assert false;
    } else if i' < USER_PDES {
      assert IsSlot(vm, Table(r, i')) && Target(vm.mem, Table(r, i')).Some?;
    } else {
      assert IsSlot(vm, Table(vm.kdir, i')) && Target(vm.mem, Table(vm.kdir, i')).Some?;
    }
  }

  ghost predicate MayMap(vm: Vm, w: Word) {
    w == ZERO || (Present(w) && w.ppn < |vm.mem| && !Structural(vm, w.ppn))
  }

  /** Storing one page table entry changes one translation, in one directory, and one slot. */
  lemma LeafStore(vm: Vm, d: nat, i: nat, j: nat, w: Word)
    requires Separated(vm) && WellFormed(vm) && Owns(vm, d, i) && j < NENTRIES
    requires Present(Entry(vm.mem, d, i)) && (d != vm.kdir ==> MayMap(vm, w))
    ensures Entry(vm.mem, d, i).ppn < |vm.mem|
    ensures var vm' := vm.(mem := Store(vm.mem, Entry(vm.mem, d, i).ppn, j, w));
            && Separated(vm') && WellFormed(vm')
            && (forall r, m: nat :: IsRoot(vm, r) && m < NENTRIES ==> Entry(vm'.mem, r, m) == Entry(vm.mem, r, m))
            && (forall r, m: nat, n: nat :: IsRoot(vm, r) && m < NENTRIES && n < NENTRIES ==>
                  Pte(vm'.mem, r, m, n) == if r == d && m == i && n == j then w else Pte(vm.mem, r, m, n))
            && (forall s :: IsSlot(vm, s) && s != Leaf(d, i, j) ==> Target(vm'.mem, s) == Target(vm.mem, s))
  {
    var t := Entry(vm.mem, d, i).ppn;
    assert Target(vm.mem, Table(d, i)) == Some(t as nat);
    var vm' := vm.(mem := Store(vm.mem, t, j, w));
    StoreReads(vm.mem, t, j, w);
    forall r | IsRoot(vm, r)
      ensures r != t
    {
      assert r in vm.dirs ==> IsSlot(vm, Root(r)) && Target(vm.mem, Root(r)) == Some(r);
    }
    assert forall r, m: nat :: IsRoot(vm, r) && m < NENTRIES ==> Entry(vm'.mem, r, m) == Entry(vm.mem, r, m);
    forall r, m: nat, n: nat | IsRoot(vm, r) && m < NENTRIES && n < NENTRIES
      ensures Pte(vm'.mem, r, m, n) == if r == d && m == i && n == j then w else Pte(vm.mem, r, m, n)
    {
      if Present(Entry(vm.mem, r, m)) && Entry(vm.mem, r, m).ppn == t { TableOwner(vm, d, i, r, m); }
    }
    forall s | IsSlot(vm, s) && s != Leaf(d, i, j)
      ensures Target(vm'.mem, s) == Target(vm.mem, s)
    {
      match s
      case Root(d') =>
      case Table(d', m) => assert IsRoot(vm, d') && m < NENTRIES;
      case Leaf(d', m, n) => assert IsRoot(vm, d') && m < NENTRIES;
    }
    LeafSeparated(vm, vm', d, i, j, w);
  }

  lemma LeafSeparated(vm: Vm, vm': Vm, d: nat, i: nat, j: nat, w: Word)
    requires Separated(vm) && vm' == vm.(mem := vm'.mem) && |vm'.mem| == |vm.mem|
    requires forall s :: IsSlot(vm, s) && s != Leaf(d, i, j) ==> Target(vm'.mem, s) == Target(vm.mem, s)
    requires IsSlot(vm, Leaf(d, i, j)) ==> MayMap(vm, w)
    requires IsSlot(vm, Leaf(d, i, j)) ==>
               Target(vm'.mem, Leaf(d, i, j)) == if Present(w) then Some(w.ppn as nat) else None
    ensures Separated(vm')
  {
    forall s, s' | IsSlot(vm', s) && IsSlot(vm', s') && !s.Leaf? && s != s' && Target(vm'.mem, s).Some?
      ensures Target(vm'.mem, s) != Target(vm'.mem, s')
    {
      assert IsSlot(vm, s) && IsSlot(vm, s');
      assert Target(vm'.mem, s) == Target(vm.mem, s);
      if s' == Leaf(d, i, j) && Present(w) {
        assert Structural(vm, Target(vm.mem, s).value);
      } else {
        assert s' != Leaf(d, i, j) ==> Target(vm'.mem, s') == Target(vm.mem, s');
      }
    }
    forall s | IsSlot(vm', s) && Target(vm'.mem, s).Some?
      ensures Target(vm'.mem, s).value < |vm'.mem| && Target(vm'.mem, s).value != vm'.kdir
    {
      assert IsSlot(vm, s);
    }
  }

  /** No reference leads to page `p`, which is therefore free to become a page table. */
  ghost predicate Unreferenced(vm: Vm, p: nat) {
    p < |vm.mem| && p != vm.kdir && forall s :: IsSlot(vm, s) ==> Target(vm.mem, s) != Some(p)
  }

  function Reach(mem: seq<Frame>, pde: Word, j: nat): Word {
    if Present(pde) then Entry(mem, pde.ppn, j) else ZERO
  }

  /** Storing a directory entry that leads to the same page table entries (entering a zeroed
      page table, widening the entry's permissions, dropping an empty page table) changes one
      reference and no translation of a mapped page; only the self-map shows the difference. */
  lemma DirStore(vm: Vm, d: nat, i: nat, w: Word)
    requires Separated(vm) && WellFormed(vm) && Owns(vm, d, i) && (d == vm.kdir ==> Entry(vm.mem, d, i) == ZERO)
    requires w == ZERO || Has(w, PTE_P | PTE_W | PTE_U)
    requires Present(w) ==>
               if Present(Entry(vm.mem, d, i)) then w.ppn == Entry(vm.mem, d, i).ppn else Unreferenced(vm, w.ppn)
    requires forall n: nat :: n < NENTRIES ==> Reach(vm.mem, w, n) == Pte(vm.mem, d, i, n)
    ensures d < |vm.mem|
    ensures var vm' := vm.(mem := Store(vm.mem, d, i, w));
            && Separated(vm') && WellFormed(vm')
            && (forall r, m: nat :: IsRoot(vm, r) && m < NENTRIES ==>
                  Entry(vm'.mem, r, m) == if r == d && m == i then w else Entry(vm.mem, r, m))
            && (forall r, m: nat, n: nat :: IsRoot(vm, r) && m < NENTRIES && m != UVPT_PDE && n < NENTRIES ==>
                  Pte(vm'.mem, r, m, n) == Pte(vm.mem, r, m, n))
            && (forall r, m: nat, n: nat ::
                  IsRoot(vm, r) && m < NENTRIES && n < NENTRIES && Walk(vm.mem, r, m, n).Some? ==>
                  Walk(vm'.mem, r, m, n) == Walk(vm.mem, r, m, n) || (r == d && m == UVPT_PDE && n == i && w == ZERO))
            && (forall s :: IsSlot(vm, s) && s != Table(d, i) ==> Target(vm'.mem, s) == Target(vm.mem, s))
  {
    RootSlot(vm, d);
    var vm' := vm.(mem := Store(vm.mem, d, i, w));
    StoreReads(vm.mem, d, i, w);
    forall r, m: nat | IsRoot(vm, r) && m < NENTRIES && m != UVPT_PDE && Present(Entry(vm'.mem, r, m))
      ensures Entry(vm'.mem, r, m).ppn != d
    {
      var s := if m < USER_PDES then Table(r, m) else Table(vm.kdir, m);
      assert IsSlot(vm, s);
      assert Present(Entry(vm.mem, r, m)) ==> Target(vm.mem, s) == Some(Entry(vm.mem, r, m).ppn as nat);
      assert d != vm.kdir ==> s != Root(d);
    }
    forall r, m: nat, n: nat | IsRoot(vm, r) && m < NENTRIES && m != UVPT_PDE && n < NENTRIES
      ensures Pte(vm'.mem, r, m, n) == Pte(vm.mem, r, m, n)
    {
      if r == d && m == i {
        assert Pte(vm'.mem, r, m, n) == Reach(vm.mem, w, n);
      } else {
        assert Entry(vm'.mem, r, m) == Entry(vm.mem, r, m);
      }
    }
    forall r, m: nat, n: nat | IsRoot(vm, r) && m < NENTRIES && n < NENTRIES && Walk(vm.mem, r, m, n).Some?
      ensures Walk(vm'.mem, r, m, n) == Walk(vm.mem, r, m, n) || (r == d && m == UVPT_PDE && n == i && w == ZERO)
    {
      if w != ZERO { FullAccess(w); }
      if d != vm.kdir && Entry(vm.mem, d, i) != ZERO { FullAccess(Entry(vm.mem, d, i)); }
      if m == UVPT_PDE {
        assert SelfMapped(Entry(vm.mem, r, UVPT_PDE), r);
        assert Entry(vm'.mem, r, UVPT_PDE) == Entry(vm.mem, r, UVPT_PDE);
        assert Pte(vm'.mem, r, m, n) == Entry(vm'.mem, r, n);
        assert Pte(vm.mem, r, m, n) == Entry(vm.mem, r, n);
        assert r == d && n == i && w != ZERO ==> Entry(vm.mem, r, n).ppn == w.ppn;
      } else if r == d && m == i {
        assert Has(w, PTE_W) == Has(Entry(vm.mem, r, m), PTE_W);
      }
    }
    forall s | IsSlot(vm, s) && s != Table(d, i)
      ensures Target(vm'.mem, s) == Target(vm.mem, s)
    {
      match s
      case Root(d') =>
      case Table(d', m) => assert IsRoot(vm, d') && m < NENTRIES;
      case Leaf(d', m, n) => assert IsRoot(vm, d') && m < NENTRIES;
    }
    TableSeparated(vm, vm', d, i);
  }

  lemma TableSeparated(vm: Vm, vm': Vm, d: nat, i: nat)
    requires Separated(vm) && vm' == vm.(mem := vm'.mem) && |vm'.mem| == |vm.mem|
    requires forall s :: IsSlot(vm, s) && s != Table(d, i) ==> Target(vm'.mem, s) == Target(vm.mem, s)
    requires Target(vm'.mem, Table(d, i)).Some? && Target(vm'.mem, Table(d, i)) != Target(vm.mem, Table(d, i)) ==>
               Unreferenced(vm, Target(vm'.mem, Table(d, i)).value)
    ensures Separated(vm')
  {
    forall s, s' | IsSlot(vm', s) && IsSlot(vm', s') && !s.Leaf? && s != s' && Target(vm'.mem, s).Some?
      ensures Target(vm'.mem, s) != Target(vm'.mem, s')
    {
      assert IsSlot(vm, s) && IsSlot(vm, s');
      assert s != Table(d, i) ==> Target(vm'.mem, s) == Target(vm.mem, s);
      assert s' != Table(d, i) ==> Target(vm'.mem, s') == Target(vm.mem, s');
    }
    forall s | IsSlot(vm', s) && Target(vm'.mem, s).Some?
      ensures Target(vm'.mem, s).value < |vm'.mem| && Target(vm'.mem, s).value != vm'.kdir
    {
      assert IsSlot(vm, s);
      assert s != Table(d, i) ==> Target(vm'.mem, s) == Target(vm.mem, s);
    }
  }

  // ---- Counting references ----

  lemma IsHolder(vm: Vm, p: nat, s: Slot)
    ensures s in Holders(vm, p) <==> IsSlot(vm, s) && Target(vm.mem, s) == Some(p)
  {
    SlotsAre(vm, s);
  }

  /** When one slot changes, only the pages it left and reached gain or lose a reference. */
  lemma HoldersChange(vm: Vm, vm': Vm, s: Slot, p: nat)
    requires vm'.kdir == vm.kdir && vm'.dirs == vm.dirs && IsSlot(vm, s)
    requires forall s' :: IsSlot(vm, s') && s' != s ==> Target(vm'.mem, s') == Target(vm.mem, s')
    ensures |Holders(vm', p)| == |Holders(vm, p)|
              - (if Target(vm.mem, s) == Some(p) then 1 else 0) + (if Target(vm'.mem, s) == Some(p) then 1 else 0)
  {
    var before, after := Holders(vm, p), Holders(vm', p);
    forall s' | s' != s ensures s' in before <==> s' in after {
      IsHolder(vm, p, s');
      IsHolder(vm', p, s');
    }
    IsHolder(vm, p, s);
    IsHolder(vm', p, s);
    assert before - {s} == after - {s};
    CardChange(before, s);
    CardChange(after, s);
  }

  lemma CardChange(a: set<Slot>, s: Slot)
    ensures |a| == |a - {s}| + if s in a then 1 else 0
  {
    assert a == (a - {s}) + if s in a then {s} else {};
  }

  lemma HoldersSame(vm: Vm, vm': Vm, p: nat)
    requires vm'.kdir == vm.kdir && vm'.dirs == vm.dirs
    requires forall s :: IsSlot(vm, s) ==> Target(vm'.mem, s) == Target(vm.mem, s)
    ensures Holders(vm', p) == Holders(vm, p)
  {
    forall s ensures s in Holders(vm, p) <==> s in Holders(vm', p) {
      IsHolder(vm, p, s);
      IsHolder(vm', p, s);
    }
  }

  /** A directory whose user half is empty holds and is held by its `env_pgdir` alone. */
  lemma HoldersRoot(vm: Vm, vm': Vm, d: nat, p: nat)
    requires vm' == vm.(dirs := vm.dirs + {d}) && d !in vm.dirs && d != vm.kdir
    requires forall i: nat :: i < USER_PDES ==> Entry(vm.mem, d, i) == ZERO
    ensures |Holders(vm', p)| == |Holders(vm, p)| + if p == d then 1 else 0
  {
    forall s ensures s in Holders(vm', p) <==> s in Holders(vm, p) + if p == d then {Root(d)} else {} {
      IsHolder(vm, p, s);
      IsHolder(vm', p, s);
    }
    assert Holders(vm', p) == Holders(vm, p) + if p == d then {Root(d)} else {};
    IsHolder(vm, p, Root(d));
  }

  lemma HeldBy(vm: Vm, p: nat)
    ensures Holders(vm, p) == {} <==> forall s :: IsSlot(vm, s) ==> Target(vm.mem, s) != Some(p)
  {
    forall s ensures s in Holders(vm, p) <==> IsSlot(vm, s) && Target(vm.mem, s) == Some(p) { IsHolder(vm, p, s); }
  }
}
