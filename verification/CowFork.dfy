/** lib/fork.c: copy-on-write fork.  Environments fork, write, fault, allocate and exit in any
    order, one system call at a time; what each of them can read is what it would read if fork
    had copied every page at once, as user/dumbfork.c does. */
module CowFork {
  import opened Errors
  import opened Options
  import opened Paging
  import opened FlatVm
  import opened Word32
  import F = PageFrames

  const PTE_SHARE: Flags := 0x400
  const PTE_COW: Flags := 0x800
  const PTE_SYSCALL: Flags := 0xE07

  // Page numbers of inc/memlayout.h
  const PFTEMP_V := 0x7FF
  const USTACKTOP_V := 0xEEBFE
  const UXSTACK_V := 0xEEBFF

  /** The pages that fork goes through are those below UTOP - 2 * PGSIZE, pgfault's temporary page is
      the last below UTEXT, and above the guard page comes the one on which faults push their frames. */
  lemma Layout(v: nat)
    ensures v < USTACKTOP_V <==> v * PGSIZE < UTOP - 2 * PGSIZE
    ensures v == PFTEMP_V <==> (v + 1) * PGSIZE == 2 * PTSIZE
    ensures v == UXSTACK_V <==> v == F.STACK_PAGE
  {
  }

  /** What fork makes of an entry: it tests PTE_SHARE, then PTE_W, then PTE_COW. */
  datatype Kind = Shared | Owned | Lazy | Fixed

  function KindOf(w: Word): Kind {
    if Has(w, PTE_SHARE) then Shared
    else if Has(w, PTE_W) then Owned
    else if Has(w, PTE_COW) then Lazy
    else Fixed
  }

  const LAZY := PTE_COW | PTE_U | PTE_P
  const FIXED := PTE_U | PTE_P
  const OWNED := PTE_P | PTE_U | PTE_W

  lemma Kinds(p: Uint20)
    ensures KindOf(Word(p, LAZY)) == Lazy && KindOf(Word(p, FIXED)) == Fixed && KindOf(Word(p, OWNED)) == Owned
    ensures KindOf(Word(p, PTE_SYSCALL)) == Shared
    ensures Present(Word(p, LAZY)) && Present(Word(p, FIXED)) && Present(Word(p, OWNED))
    ensures Present(Word(p, PTE_SYSCALL))
    ensures Has(Word(p, PTE_SYSCALL), PTE_W) && OWNED | PTE_P == OWNED
  {
  }

  /** How far pgfault is for the page `v`: PFTEMP maps the old page; `v` maps the new one; and
      the new one is filled. */
  datatype Stage = Kept | Renewed | Copied
  datatype Fault = Fault(v: nat, stage: Stage)

  /** `live` are environments that run, `kids` are children under construction with their parent.
      `pend` are children's pages mapped by duppage whose parent's entry is still writable, with
      that parent.  `faults` are environments in pgfault. */
  datatype State = State(vm: Flat, live: set<nat>, kids: map<nat, nat>, pend: map<Loc, nat>, faults: map<nat, Fault>)

  function Scratch(e: nat): Loc {
    Loc(e, PFTEMP_V)
  }

  function Kd(s: State, l: Loc): Kind
    requires l in s.vm.maps
  {
    KindOf(s.vm.maps[l])
  }

  function Ppn(s: State, l: Loc): nat
    requires l in s.vm.maps
  {
    s.vm.maps[l].ppn
  }

  // ---- The eager machine ----

  /** A page of an environment: its contents; the group of pages that change together with it,
      None if it is a page of its own; and whether a store to it succeeds. */
  datatype Cell = Cell(content: Frame, group: Option<nat>, writable: bool)

  type Eager = map<Loc, Cell>

  /** dumbfork's duppage: the child gets a copy of a private page, or joins the group. */
  function Copy(g: Eager, from: Loc, to: Loc): Eager {
    if from in g then g[to := g[from]] else g
  }

  /** A store changes the page and the pages of its group. */
  function Poke(g: Eager, at: Loc, k: nat, x: Word): Eager
    requires k < NENTRIES
  {
    map l | l in g :: if Together(g, at, l) then g[l].(content := g[l].content[k := x]) else g[l]
  }

  predicate Together(g: Eager, at: Loc, l: Loc) {
    at in g && l in g && g[at].writable && (l == at || (g[at].group.Some? && g[l].group == g[at].group))
  }

  function CellFor(kind: Kind, p: nat, f: Frame): Cell {
    Cell(f, if kind == Owned || kind == Lazy then None else Some(p), kind != Fixed)
  }

  // ---- What environments do ----

  datatype Step =
    | Exofork(e: nat, c: nat)                             // sys_exofork
    | DupFirst(e: nat, c: nat, v: nat)                    // duppage: the mapping in the child
    | DupSecond(e: nat, c: nat, v: nat)                   // duppage: the parent's own, made copy-on-write
    | Start(e: nat, c: nat)                               // sys_env_set_status(child, ENV_RUNNABLE)
    | FaultKeep(e: nat, v: nat)                           // pgfault: sys_page_map(0, addr, 0, PFTEMP)
    | FaultRenew(e: nat, p: Uint20)                       // pgfault: sys_page_alloc(0, addr)
    | FaultCopy(e: nat)                                   // pgfault: memmove(addr, PFTEMP)
    | FaultDrop(e: nat)                                   // pgfault: sys_page_unmap(0, PFTEMP)
    | Write(e: nat, v: nat, k: nat, x: Word)              // a store that does not fault
    | Alloc(e: nat, t: nat, v: nat, p: Uint20, perm: Flags)  // sys_page_alloc for itself or for its child
    | Unmap(e: nat, v: nat)                               // sys_page_unmap
    | Kill(e: nat, c: nat)                                // sys_env_destroy of a child under construction
    | Exit(e: nat)                                        // env_free, by itself or by another environment

  /** `e` is between the two mappings of a duppage. */
  ghost predicate Dupping(s: State, e: nat) {
    exists m :: m in s.pend && s.pend[m] == e
  }

  /** An environment does one thing at a time; PFTEMP is pgfault's; a shared page is writable. */
  ghost predicate Allowed(s: State, a: Step) {
    match a
    case Exofork(e, c) =>
      e in s.live && e !in s.faults && c !in s.live && c !in s.kids && forall l :: l in s.vm.maps ==> l.dir != c
    case DupFirst(e, c, v) =>
      && e in s.live && e !in s.faults && c in s.kids && s.kids[c] == e && !Dupping(s, e)
      && v < USTACKTOP_V && v != PFTEMP_V && Loc(e, v) in s.vm.maps && Has(s.vm.maps[Loc(e, v)], PTE_U)
      && Loc(c, v) !in s.vm.maps
    case DupSecond(e, c, v) =>
      && e in s.live && e !in s.faults && v != PFTEMP_V && Loc(e, v) in s.vm.maps
      && (Kd(s, Loc(e, v)) == Owned || Kd(s, Loc(e, v)) == Lazy)
      && (Dupping(s, e) <==> Loc(c, v) in s.pend) && (Loc(c, v) in s.pend ==> s.pend[Loc(c, v)] == e)
    case Start(e, c) =>
      e in s.live && e !in s.faults && c in s.kids && s.kids[c] == e && !Dupping(s, e)
    case FaultKeep(e, v) =>
      e in s.live && e !in s.faults && v != PFTEMP_V && Loc(e, v) in s.vm.maps && Kd(s, Loc(e, v)) == Lazy
    case FaultRenew(e, p) => e in s.faults && s.faults[e].stage == Kept && p as nat !in s.vm.data
    case FaultCopy(e) => e in s.faults && s.faults[e].stage == Renewed
    case FaultDrop(e) => e in s.faults && s.faults[e].stage == Copied
    case Write(e, v, k, _) =>
      && e in s.live && v != PFTEMP_V && k < NENTRIES && Loc(e, v) in s.vm.maps && Has(s.vm.maps[Loc(e, v)], PTE_W)
      && (e in s.faults ==> s.faults[e].v != v)
    case Alloc(e, t, v, p, perm) =>
      && e in s.live && e !in s.faults && !Dupping(s, e) && (t == e || (t in s.kids && s.kids[t] == e)) && v != PFTEMP_V
      && p as nat !in s.vm.data && PermOk(perm) && (KindOf(Word(p, perm)) == Shared ==> Has(Word(p, perm), PTE_W))
    case Unmap(e, v) => e in s.live && e !in s.faults && !Dupping(s, e) && v != PFTEMP_V
    case Kill(e, c) =>
      e in s.live && e !in s.faults && c in s.kids && s.kids[c] == e && !Dupping(s, e)
    case Exit(e) => e in s.live
  }

  /** The permission with which duppage maps a page in the child. */
  function ChildPerm(kind: Kind): Flags {
    match kind
    case Shared => PTE_SYSCALL
    case Owned => LAZY
    case Lazy => LAZY
    case Fixed => FIXED
  }

  ghost function Next(s: State, a: Step): State
    requires Allowed(s, a)
  {
    match a
    case Exofork(e, c) => s.(kids := s.kids[c := e])
    case DupFirst(e, c, v) =>
      var w := s.vm.maps[Loc(e, v)];
      s.(vm := Enter(s.vm, Loc(c, v), Word(w.ppn, ChildPerm(KindOf(w)))),
         pend := if KindOf(w) == Owned then s.pend[Loc(c, v) := e] else s.pend)
    case DupSecond(e, c, v) =>
      s.(vm := Enter(s.vm, Loc(e, v), Word(s.vm.maps[Loc(e, v)].ppn, LAZY)),
         pend := s.pend - {Loc(c, v)})
    case Start(e, c) => s.(live := s.live + {c}, kids := s.kids - {c})
    case FaultKeep(e, v) =>
      s.(vm := Enter(s.vm, Scratch(e), Word(s.vm.maps[Loc(e, v)].ppn, FIXED)), faults := s.faults[e := Fault(v, Kept)])
    case FaultRenew(e, p) =>
      var v := s.faults[e].v;
      s.(vm := Fresh(s.vm, Loc(e, v), p, OWNED), faults := s.faults[e := Fault(v, Renewed)])
    case FaultCopy(e) =>
      var v := s.faults[e].v;
      s.(vm := Overwrite(s.vm, Loc(e, v), Scratch(e)), faults := s.faults[e := Fault(v, Copied)])
    case FaultDrop(e) => s.(vm := Remove(s.vm, Scratch(e)), faults := s.faults - {e})
    case Write(e, v, k, x) =>
      s.(vm := Stored(s.vm, Loc(e, v), k, x))
    case Alloc(e, t, v, p, perm) => s.(vm := Fresh(s.vm, Loc(t, v), p, perm))
    case Unmap(e, v) => s.(vm := Remove(s.vm, Loc(e, v)))
    case Kill(e, c) => s.(vm := RemoveAll(s.vm, c), kids := s.kids - {c})
    case Exit(e) =>
      State(RemoveAll(s.vm, e), s.live - {e}, map c | c in s.kids && s.kids[c] != e :: s.kids[c],
            map m | m in s.pend && s.pend[m] != e :: s.pend[m], s.faults - {e})
  }

  /** memmove of one page over another, through their mappings. */
  function Overwrite(f: Flat, to: Loc, from: Loc): Flat {
    if to in f.maps && from in f.maps
    then f.(data := f.data[f.maps[to].ppn as nat := Contents(f, f.maps[from].ppn)])
    else f
  }

  function Stored(f: Flat, at: Loc, k: nat, x: Word): Flat
    requires k < NENTRIES
  {
    if at in f.maps && f.maps[at].ppn as nat in f.data then StoreWord(f, f.maps[at].ppn, k, x) else f
  }

  /** What the step is in the eager machine: fork copies a page when its second mapping is done,
      or at the first if it was copy-on-write already, or when the parent is destroyed between the
      two; the calls of pgfault do nothing at all. */
  ghost function EagerNext(s: State, g: Eager, a: Step): Eager
    requires Allowed(s, a)
  {
    match a
    case DupFirst(e, c, v) => if Kd(s, Loc(e, v)) == Owned then g else Copy(g, Loc(e, v), Loc(c, v))
    case DupSecond(e, c, v) => if Loc(c, v) in s.pend then Copy(g, Loc(e, v), Loc(c, v)) else g
    case Write(e, v, k, x) => Poke(g, Loc(e, v), k, x)
    case Alloc(e, t, v, p, perm) => g[Loc(t, v) := CellFor(KindOf(Word(p, perm | PTE_P)), p, ZeroFrame())]
    case Unmap(e, v) => g - {Loc(e, v)}
    case Kill(e, c) => map l | l in g && l.dir != c :: g[l]
    case Exit(e) =>
      map l | l in g.Keys + s.pend.Keys && l.dir != e && Origin(s, e, l) in g :: g[Origin(s, e, l)]
    case _ => g
  }

  /** Where a page of another environment comes from when `e` is destroyed. */
  function Origin(s: State, e: nat, l: Loc): Loc {
    if l in s.pend && s.pend[l] == e then Loc(e, l.v) else l
  }

  // ---- The eager state that a state stands for ----

  predicate Hidden(s: State, l: Loc) {
    l.v == PFTEMP_V || l in s.pend
  }

  /** Where the contents of a page are: while pgfault fills the new page, still under PFTEMP. */
  function Source(s: State, l: Loc): nat
    requires l in s.vm.maps
  {
    if l.dir in s.faults && s.faults[l.dir] == Fault(l.v, Renewed) && Scratch(l.dir) in s.vm.maps
    then Ppn(s, Scratch(l.dir)) else Ppn(s, l)
  }

  function CellOf(s: State, l: Loc): Cell
    requires l in s.vm.maps
  {
    CellFor(Kd(s, l), Ppn(s, l), Contents(s.vm, Source(s, l)))
  }

  function Abs(s: State): Eager {
    map l | l in s.vm.maps && !Hidden(s, l) :: CellOf(s, l)
  }

  // ---- The invariant ----

  /** A page is shared by all its mappings or by none, and shared pages are writable. */
  ghost predicate SharedOk(s: State) {
    && (forall l :: l in s.vm.maps && Kd(s, l) == Shared ==> Has(s.vm.maps[l], PTE_W))
    && (forall l, m :: l in s.vm.maps && m in s.vm.maps && Ppn(s, l) == Ppn(s, m) && Kd(s, l) == Shared ==>
        Kd(s, m) == Shared)
  }

  /** A page that is writable and not shared has one mapping, but for the child's while duppage
      has yet to make the parent's copy-on-write. */
  ghost predicate Single(s: State) {
    forall l, m :: l in s.vm.maps && m in s.vm.maps && l != m && Ppn(s, l) == Ppn(s, m) && Kd(s, l) == Owned ==>
      DupPair(s, l, m)
  }

  ghost predicate DupPair(s: State, l: Loc, m: Loc) {
    m in s.pend && s.pend[m] == l.dir && m.v == l.v
  }

  ghost predicate PendOk(s: State) {
    && (forall m :: m in s.pend ==> PendingOk(s, m, Loc(s.pend[m], m.v)))
    && (forall m, n :: m in s.pend && n in s.pend && s.pend[m] == s.pend[n] ==> m == n)
  }

  ghost predicate PendingOk(s: State, m: Loc, l: Loc) {
    && m.v != PFTEMP_V && m.dir in s.kids && s.kids[m.dir] == l.dir && l.dir in s.live
    && m in s.vm.maps && l in s.vm.maps && Kd(s, m) == Lazy && Kd(s, l) == Owned && Ppn(s, m) == Ppn(s, l)
    && (l.dir in s.faults ==> s.faults[l.dir].v != l.v)
  }

  ghost predicate FaultsOk(s: State) {
    && (forall e :: e in s.faults ==> FaultOk(s, e, s.faults[e]))
    && (forall l :: l in s.vm.maps && l.v == PFTEMP_V ==> l.dir in s.faults)
  }

  ghost predicate FaultOk(s: State, e: nat, f: Fault) {
    && e in s.live && f.v != PFTEMP_V && Scratch(e) in s.vm.maps && Loc(e, f.v) in s.vm.maps
    && Kd(s, Scratch(e)) == Fixed
    && (if f.stage == Kept then Kd(s, Loc(e, f.v)) == Lazy && Ppn(s, Loc(e, f.v)) == Ppn(s, Scratch(e))
        else Kd(s, Loc(e, f.v)) == Owned)
  }

  /** Children under construction do not run; who owns mappings is one of the two. */
  ghost predicate Apart(s: State) {
    forall c :: c in s.kids ==> c !in s.live
  }

  ghost predicate Inv(s: State) {
    Good(s.vm) && SharedOk(s) && Single(s) && PendOk(s) && FaultsOk(s) && Apart(s)
  }

  // ---- What the page operations leave ----

  /** All pages mapped after hold what they held before. */
  ghost predicate SameContents(f: Flat, g: Flat) {
    forall l :: l in g.maps ==> Contents(g, g.maps[l].ppn) == Contents(f, g.maps[l].ppn)
  }

  lemma EnterFacts(f: Flat, at: Loc, w: Word)
    requires Good(f) && Present(w) && w.ppn as nat in f.data
    ensures var g := Enter(f, at, w); g.maps == f.maps[at := w] && Good(g) && SameContents(f, g)
  {
    var maps := f.maps[at := w];
    forall l | l in maps
      ensures Present(maps[l]) && maps[l].ppn as nat in f.data
    {
      if l != at { GoodHas(f, l); }
    }
    Settled(maps, f.data);
  }

  lemma FreshFacts(f: Flat, at: Loc, p: Uint20, perm: Flags)
    requires Good(f) && p as nat !in f.data
    ensures var g := Fresh(f, at, p, perm);
      && g.maps == f.maps[at := Word(p, perm | PTE_P)] && Good(g) && Contents(g, p) == ZeroFrame()
      && forall l :: l in f.maps ==>
           f.maps[l].ppn != p && (l != at ==> Contents(g, f.maps[l].ppn) == Contents(f, f.maps[l].ppn))
  {
    StillPresent(p, perm);
    var maps, pool := f.maps[at := Word(p, perm | PTE_P)], f.data[p as nat := ZeroFrame()];
    forall l | l in maps
      ensures Present(maps[l]) && maps[l].ppn as nat in pool
    {
      if l != at { GoodHas(f, l); }
    }
    Settled(maps, pool);
    forall l | l in f.maps
      ensures f.maps[l].ppn != p
      ensures (l != at ==> Contents(Fresh(f, at, p, perm), f.maps[l].ppn) == Contents(f, f.maps[l].ppn))
    {
      GoodHas(f, l);
      if l != at { assert l in maps && maps[l] == f.maps[l]; }
    }
    assert at in maps;
  }

  lemma RemoveFacts(f: Flat, at: Loc)
    requires Good(f)
    ensures var g := Remove(f, at); g.maps == f.maps - {at} && Good(g) && SameContents(f, g)
  {
    forall l | l in f.maps
      ensures Present(f.maps[l]) && f.maps[l].ppn as nat in f.data
    {
      GoodHas(f, l);
    }
    Settled(f.maps - {at}, f.data);
  }

  lemma RemoveAllFacts(f: Flat, e: nat)
    requires Good(f)
    ensures var g := RemoveAll(f, e);
            g.maps == (map l | l in f.maps && l.dir != e :: f.maps[l]) && Good(g)
            && SameContents(f, g)
  {
    forall l | l in f.maps
      ensures Present(f.maps[l]) && f.maps[l].ppn as nat in f.data
    {
      GoodHas(f, l);
    }
    Settled(map l | l in f.maps && l.dir != e :: f.maps[l], f.data);
  }

  /** One entry is set.  Its page is shared as the other mappings of that page are. */
  lemma SetShared(s: State, t: State, at: Loc, w: Word)
    requires SharedOk(s) && t.vm.maps == s.vm.maps[at := w] && (KindOf(w) == Shared ==> Has(w, PTE_W))
    requires forall l :: l in s.vm.maps && l != at && Ppn(s, l) == w.ppn ==>
               (Kd(s, l) == Shared <==> KindOf(w) == Shared)
    ensures SharedOk(t)
  {
    hide KindOf, Has;
    forall l | l in t.vm.maps && Kd(t, l) == Shared
      ensures Has(t.vm.maps[l], PTE_W)
    {
      if l != at { assert l in s.vm.maps && Kd(s, l) == Shared; }
    }
    forall l, m | l in t.vm.maps && m in t.vm.maps && Ppn(t, l) == Ppn(t, m) && Kd(t, l) == Shared
      ensures Kd(t, m) == Shared
    {
      assert l != at ==> l in s.vm.maps && Kd(s, l) == Kd(t, l) && Ppn(s, l) == Ppn(t, l);
      assert m != at ==> m in s.vm.maps && Kd(s, m) == Kd(t, m) && Ppn(s, m) == Ppn(t, m);
    }
  }

  /** One entry is set: no other mapping of its page is writable, and if it is writable there is
      no other, except within a duppage. */
  lemma SetSingle(s: State, t: State, at: Loc, w: Word)
    requires Single(s) && t.vm.maps == s.vm.maps[at := w]
    requires forall l :: l in s.vm.maps && l != at && Ppn(s, l) == w.ppn ==>
      (Kd(s, l) == Owned ==> DupPair(t, l, at)) && (KindOf(w) == Owned ==> DupPair(t, at, l))
    requires forall l, m :: l in s.vm.maps && m in s.vm.maps && l != at && m != at ==>
               Kd(s, l) == Owned && DupPair(s, l, m) ==> DupPair(t, l, m)
    ensures Single(t)
  {
    hide KindOf, Has, DupPair;
    forall l, m | l in t.vm.maps && m in t.vm.maps && l != m && Ppn(t, l) == Ppn(t, m) && Kd(t, l) == Owned
      ensures DupPair(t, l, m)
    {
      assert l != at ==> l in s.vm.maps && Kd(s, l) == Kd(t, l) && Ppn(s, l) == Ppn(t, l);
      assert m != at ==> m in s.vm.maps && Kd(s, m) == Kd(t, m) && Ppn(s, m) == Ppn(t, m);
    }
  }

  /** Mappings go, and none changes. */
  lemma FewerMaps(s: State, t: State)
    requires SharedOk(s) && Single(s)
    requires forall l :: l in t.vm.maps ==> l in s.vm.maps && t.vm.maps[l] == s.vm.maps[l]
    requires forall m :: m in s.pend ==>
               (m in t.pend && t.pend[m] == s.pend[m]) || forall l :: l in t.vm.maps ==> l.dir != s.pend[m]
    ensures SharedOk(t) && Single(t)
  {
    hide KindOf, Has;
    forall l | l in t.vm.maps && Kd(t, l) == Shared
      ensures Has(t.vm.maps[l], PTE_W)
    {
      assert Kd(s, l) == Shared;
    }
    forall l, m | l in t.vm.maps && m in t.vm.maps && Ppn(t, l) == Ppn(t, m)
      ensures Kd(t, l) == Shared ==> Kd(t, m) == Shared
      ensures l != m && Kd(t, l) == Owned ==> DupPair(t, l, m)
    {
      assert l != m && Kd(s, l) == Owned ==> DupPair(s, l, m);
      assert Ppn(s, l) == Ppn(s, m) && Kd(s, l) == Kd(t, l) && Kd(s, m) == Kd(t, m);
    }
  }

  ghost predicate SameAt(s: State, t: State, l: Loc) {
    l in s.vm.maps ==> l in t.vm.maps && t.vm.maps[l] == s.vm.maps[l]
  }

  /** The fault of `e` is that of before, or in another page. */
  ghost predicate FaultApart(s: State, t: State, e: nat, v: nat) {
    e in t.faults ==> (e in s.faults && t.faults[e].v == s.faults[e].v) || t.faults[e].v != v
  }

  /** The two entries of each duppage under way stay. */
  lemma PendKept(s: State, t: State)
    requires PendOk(s) && t.pend == s.pend
    requires forall m :: m in s.pend ==> FaultApart(s, t, s.pend[m], m.v)
    requires forall m :: m in s.pend ==> SameAt(s, t, m) && SameAt(s, t, Loc(s.pend[m], m.v))
    requires forall m :: m in s.pend && m.dir in s.kids && s.pend[m] in s.live ==>
      m.dir in t.kids && t.kids[m.dir] == s.kids[m.dir] && s.pend[m] in t.live
    ensures PendOk(t)
  {
    hide KindOf;
    forall m | m in t.pend
      ensures PendingOk(t, m, Loc(t.pend[m], m.v))
    {
      assert PendingOk(s, m, Loc(s.pend[m], m.v));
    }
  }

  /** The two entries of each fault that is still under way stay. */
  lemma FaultsKept(s: State, t: State)
    requires FaultsOk(s) && forall e :: e in t.faults ==> e in s.faults && t.faults[e] == s.faults[e] && e in t.live
    requires forall e :: e in t.faults ==> SameAt(s, t, Scratch(e)) && SameAt(s, t, Loc(e, t.faults[e].v))
    requires forall l :: l in t.vm.maps && l.v == PFTEMP_V ==> l.dir in t.faults
    ensures FaultsOk(t)
  {
    hide KindOf;
    forall e | e in t.faults
      ensures FaultOk(t, e, t.faults[e])
    {
      assert FaultOk(s, e, s.faults[e]);
    }
  }

  lemma PendNotScratch(s: State)
    requires PendOk(s)
    ensures forall l :: l in s.pend ==> l.v != PFTEMP_V
  {
    hide Kd;
    assert forall l :: l in s.pend ==> PendingOk(s, l, Loc(s.pend[l], l.v));
  }

  lemma LiveNotPending(s: State, l: Loc)
    requires Inv(s) && l.dir in s.live
    ensures l !in s.pend
  {
    hide Kd, Single, SharedOk, FaultsOk;
    assert l in s.pend ==> PendingOk(s, l, Loc(s.pend[l], l.v));
  }

  /** A page that is copy-on-write for a running environment is writable for none. */
  lemma LazyNotOwned(s: State, l: Loc, m: Loc)
    requires Inv(s) && l in s.vm.maps && m in s.vm.maps && Kd(s, l) == Lazy && l.dir in s.live && Ppn(s, m) == Ppn(s, l)
    ensures Kd(s, m) == Lazy || Kd(s, m) == Fixed
  {
    hide KindOf, FaultsOk, PendOk;
    LiveNotPending(s, l);
    assert Kd(s, m) == Owned ==> DupPair(s, m, l);
  }

  // ---- fork ----

  lemma DupFirstMaps(s: State, e: nat, c: nat, v: nat) returns (w: Word, n: Word)
    requires Inv(s) && Allowed(s, DupFirst(e, c, v))
    ensures w == s.vm.maps[Loc(e, v)] && n.ppn == w.ppn && KindOf(n) == if KindOf(w) == Owned then Lazy else KindOf(w)
    ensures KindOf(n) == Shared ==> Has(n, PTE_W)
    ensures Loc(c, v) !in s.vm.maps && Loc(c, v) !in s.pend && c !in s.live && c !in s.faults
    ensures var t := Next(s, DupFirst(e, c, v));
            t.vm.maps == s.vm.maps[Loc(c, v) := n] && Good(t.vm)
            && SameContents(s.vm, t.vm)
  {
    hide Has, Enter, Good;
    assert Loc(c, v) in s.pend ==> PendingOk(s, Loc(c, v), Loc(s.pend[Loc(c, v)], v));
    w := s.vm.maps[Loc(e, v)];
    n := Word(w.ppn, ChildPerm(KindOf(w)));
    Kinds(w.ppn);
    GoodHas(s.vm, Loc(e, v));
    EnterFacts(s.vm, Loc(c, v), n);
  }

  lemma DupFirstKeeps(s: State, e: nat, c: nat, v: nat)
    requires Inv(s) && Allowed(s, DupFirst(e, c, v))
    ensures Inv(Next(s, DupFirst(e, c, v)))
  {
    hide KindOf, Has, Enter, Good, SameContents, PendOk, FaultsOk;
    var w, n := DupFirstMaps(s, e, c, v);
    var t := Next(s, DupFirst(e, c, v));
    SetShared(s, t, Loc(c, v), n);
    LiveNotPending(s, Loc(e, v));
    forall l | l in s.vm.maps && Ppn(s, l) == n.ppn && Kd(s, l) == Owned
      ensures DupPair(t, l, Loc(c, v))
    {
      assert l != Loc(e, v) ==> DupPair(s, l, Loc(e, v));
    }
    SetSingle(s, t, Loc(c, v), n);
    DupFirstRest(s, t, e, c, v, n);
  }

  lemma DupFirstRest(s: State, t: State, e: nat, c: nat, v: nat, n: Word)
    requires PendOk(s) && FaultsOk(s) && Allowed(s, DupFirst(e, c, v)) && t.vm.maps == s.vm.maps[Loc(c, v) := n]
    requires n.ppn == s.vm.maps[Loc(e, v)].ppn && (Kd(s, Loc(e, v)) == Owned ==> KindOf(n) == Lazy)
    requires t == s.(vm := t.vm, pend := if Kd(s, Loc(e, v)) == Owned then s.pend[Loc(c, v) := e] else s.pend)
    ensures PendOk(t) && FaultsOk(t)
  {
    hide KindOf, Has;
    forall m | m in t.pend
      ensures PendingOk(t, m, Loc(t.pend[m], m.v))
    {
      assert m in s.pend ==> PendingOk(s, m, Loc(s.pend[m], m.v));
    }
    FaultsKept(s, t);
  }

  lemma DupFirstEager(s: State, e: nat, c: nat, v: nat)
    requires Inv(s) && Allowed(s, DupFirst(e, c, v))
    ensures Abs(Next(s, DupFirst(e, c, v))) == EagerNext(s, Abs(s), DupFirst(e, c, v))
  {
    hide KindOf, Has, Enter, Good, Inv, Contents;
    var w, n := DupFirstMaps(s, e, c, v);
    var t := Next(s, DupFirst(e, c, v));
    LiveNotPending(s, Loc(e, v));
    forall l | l in t.vm.maps && !Hidden(t, l)
      ensures CellOf(t, l) == CellOf(s, if l == Loc(c, v) then Loc(e, v) else l)
    {
      assert Contents(t.vm, t.vm.maps[l].ppn) == Contents(s.vm, t.vm.maps[l].ppn);
      assert l != Loc(c, v) ==> Source(t, l) == Source(s, l);
    }
  }

  lemma DupSecondMaps(s: State, e: nat, c: nat, v: nat) returns (w: Word, n: Word)
    requires Inv(s) && Allowed(s, DupSecond(e, c, v))
    ensures w == s.vm.maps[Loc(e, v)] && n.ppn == w.ppn && KindOf(n) == Lazy
    ensures Loc(e, v) !in s.pend
    ensures Loc(c, v) in s.pend ==> PendingOk(s, Loc(c, v), Loc(e, v)) && c !in s.faults
    ensures var t := Next(s, DupSecond(e, c, v));
            t.vm.maps == s.vm.maps[Loc(e, v) := n] && Good(t.vm)
            && SameContents(s.vm, t.vm)
  {
    hide Has, Enter, Good;
    w := s.vm.maps[Loc(e, v)];
    n := Word(w.ppn, LAZY);
    Kinds(w.ppn);
    LiveNotPending(s, Loc(e, v));
    assert Loc(c, v) in s.pend ==> PendingOk(s, Loc(c, v), Loc(e, v));
    GoodHas(s.vm, Loc(e, v));
    EnterFacts(s.vm, Loc(e, v), n);
  }

  lemma DupSecondKeeps(s: State, e: nat, c: nat, v: nat)
    requires Inv(s) && Allowed(s, DupSecond(e, c, v))
    ensures Inv(Next(s, DupSecond(e, c, v)))
  {
    hide KindOf, Has, Enter, Good, SameContents, PendOk, FaultsOk;
    var w, n := DupSecondMaps(s, e, c, v);
    var t := Next(s, DupSecond(e, c, v));
    SetShared(s, t, Loc(e, v), n);
    SetSingle(s, t, Loc(e, v), n);
    DupSecondPend(s, e, c, v, n);
  }

  lemma DupSecondPend(s: State, e: nat, c: nat, v: nat, n: Word)
    requires Inv(s) && Allowed(s, DupSecond(e, c, v)) && KindOf(n) == Lazy && n.ppn == s.vm.maps[Loc(e, v)].ppn
    requires Next(s, DupSecond(e, c, v)).vm.maps == s.vm.maps[Loc(e, v) := n]
    ensures PendOk(Next(s, DupSecond(e, c, v))) && FaultsOk(Next(s, DupSecond(e, c, v)))
  {
    hide KindOf, Has, Enter, Good, Single, SharedOk;
    var t := Next(s, DupSecond(e, c, v));
    LiveNotPending(s, Loc(e, v));
    forall m | m in t.pend
      ensures PendingOk(t, m, Loc(t.pend[m], m.v))
    {
      assert PendingOk(s, m, Loc(s.pend[m], m.v));
      assert t.pend[m] == e ==> Dupping(s, e);
    }
    forall x | x in t.faults
      ensures FaultOk(t, x, t.faults[x])
    {
      assert FaultOk(s, x, s.faults[x]);
    }
  }

  lemma DupSecondCells(s: State, e: nat, c: nat, v: nat)
    requires Inv(s) && Allowed(s, DupSecond(e, c, v))
    ensures Loc(e, v) !in s.pend && (Loc(c, v) in s.pend ==> Loc(c, v) in s.vm.maps && Loc(c, v) != Loc(e, v))
    ensures var t := Next(s, DupSecond(e, c, v));
      forall l :: l in t.vm.maps && !Hidden(t, l) ==>
        l in s.vm.maps && CellOf(t, l) == CellOf(s, if l == Loc(c, v) && l in s.pend then Loc(e, v) else l)
  {
    hide KindOf, Has, Enter, Good, Inv, Contents;
    var w, n := DupSecondMaps(s, e, c, v);
    var t := Next(s, DupSecond(e, c, v));
    forall l | l in t.vm.maps && !Hidden(t, l)
      ensures l in s.vm.maps && CellOf(t, l) == CellOf(s, if l == Loc(c, v) && l in s.pend then Loc(e, v) else l)
    {
      assert Contents(t.vm, t.vm.maps[l].ppn) == Contents(s.vm, t.vm.maps[l].ppn);
    }
  }

  lemma DupSecondEager(s: State, e: nat, c: nat, v: nat)
    requires Inv(s) && Allowed(s, DupSecond(e, c, v))
    ensures Abs(Next(s, DupSecond(e, c, v))) == EagerNext(s, Abs(s), DupSecond(e, c, v))
  {
    hide KindOf, Has, Enter, Good, Inv, Contents, CellOf;
    DupSecondCells(s, e, c, v);
    var w, n := DupSecondMaps(s, e, c, v);
  }

  // ---- pgfault ----

  lemma FaultKeepMaps(s: State, e: nat, v: nat) returns (n: Word)
    requires Inv(s) && Allowed(s, FaultKeep(e, v))
    ensures n.ppn == s.vm.maps[Loc(e, v)].ppn && KindOf(n) == Fixed && Scratch(e) !in s.vm.maps
    ensures var t := Next(s, FaultKeep(e, v));
            t.vm.maps == s.vm.maps[Scratch(e) := n] && Good(t.vm)
            && SameContents(s.vm, t.vm)
  {
    hide Has, Enter, Good;
    n := Word(s.vm.maps[Loc(e, v)].ppn, FIXED);
    Kinds(n.ppn);
    GoodHas(s.vm, Loc(e, v));
    EnterFacts(s.vm, Scratch(e), n);
  }

  /** A page whose fault begins is copy-on-write, and so not the parent's in a duppage. */
  lemma NotOfDuppage(s: State, l: Loc)
    requires PendOk(s) && l in s.vm.maps && Kd(s, l) == Lazy
    ensures forall m :: m in s.pend && s.pend[m] == l.dir ==> m.v != l.v
  {
    hide KindOf;
    forall m | m in s.pend && s.pend[m] == l.dir
      ensures m.v != l.v
    {
      assert PendingOk(s, m, Loc(s.pend[m], m.v));
    }
  }

  /** A fault of `e` begins or advances: only its page and PFTEMP may change. */
  lemma FaultMoves(s: State, t: State, e: nat, f: Fault)
    requires Inv(s) && e in s.live && t.live == s.live && t.kids == s.kids && t.pend == s.pend
    requires t.faults == s.faults[e := f]
    requires FaultOk(t, e, f)
    requires forall l :: l != Scratch(e) && l != Loc(e, f.v) ==> (l in t.vm.maps <==> l in s.vm.maps) && SameAt(s, t, l)
    requires SameAt(s, t, Loc(e, f.v)) || (Loc(e, f.v) in s.vm.maps && Kd(s, Loc(e, f.v)) == Lazy)
    requires (e in s.faults && s.faults[e].v == f.v) || forall m :: m in s.pend && s.pend[m] == e ==> m.v != f.v
    ensures PendOk(t) && FaultsOk(t)
  {
    hide KindOf, Good, SharedOk, Single;
    PendNotScratch(s);
    forall m | m in s.pend
      ensures SameAt(s, t, m) && SameAt(s, t, Loc(s.pend[m], m.v)) && FaultApart(s, t, s.pend[m], m.v)
    {
      assert PendingOk(s, m, Loc(s.pend[m], m.v));
    }
    PendKept(s, t);
    forall x | x in t.faults
      ensures FaultOk(t, x, t.faults[x])
    {
      if x != e {
        assert FaultOk(s, x, s.faults[x]);
        assert SameAt(s, t, Scratch(x)) && SameAt(s, t, Loc(x, s.faults[x].v));
      }
    }
  }

  lemma FaultKeepKeeps(s: State, e: nat, v: nat)
    requires Inv(s) && Allowed(s, FaultKeep(e, v))
    ensures Inv(Next(s, FaultKeep(e, v)))
  {
    hide KindOf, Has, Enter, Good, SameContents, PendOk, FaultsOk;
    var n := FaultKeepMaps(s, e, v);
    var t := Next(s, FaultKeep(e, v));
    SetShared(s, t, Scratch(e), n);
    forall l | l in s.vm.maps && Ppn(s, l) == n.ppn
      ensures Kd(s, l) == Lazy || Kd(s, l) == Fixed
    {
      LazyNotOwned(s, Loc(e, v), l);
    }
    SetSingle(s, t, Scratch(e), n);
    NotScratch(s, Loc(e, v));
    NotOfDuppage(s, Loc(e, v));
    FaultMoves(s, t, e, Fault(v, Kept));
  }

  lemma FaultKeepEager(s: State, e: nat, v: nat)
    requires Inv(s) && Allowed(s, FaultKeep(e, v))
    ensures Abs(Next(s, FaultKeep(e, v))) == EagerNext(s, Abs(s), FaultKeep(e, v))
  {
    hide KindOf, Has, Enter, Good, Inv, Contents;
    var n := FaultKeepMaps(s, e, v);
    var t := Next(s, FaultKeep(e, v));
    forall l | l in t.vm.maps && !Hidden(t, l)
      ensures CellOf(t, l) == CellOf(s, l)
    {
      assert Source(t, l) == Source(s, l);
      assert t.vm.maps[l] == s.vm.maps[l];
    }
  }

  lemma FaultRenewMaps(s: State, e: nat, p: Uint20) returns (at: Loc, n: Word)
    requires Inv(s) && Allowed(s, FaultRenew(e, p))
    ensures at == Loc(e, s.faults[e].v) && n.ppn == p && KindOf(n) == Owned && at !in s.pend
    ensures FaultOk(s, e, s.faults[e])
    ensures forall l :: l in s.vm.maps ==> Ppn(s, l) != p
    ensures var t := Next(s, FaultRenew(e, p)); t.vm.maps == s.vm.maps[at := n] && Good(t.vm)
    ensures var t := Next(s, FaultRenew(e, p));
            forall l :: l in s.vm.maps && l != at ==> Contents(t.vm, Ppn(s, l)) == Contents(s.vm, Ppn(s, l))
  {
    hide Has, Fresh, Good;
    at := Loc(e, s.faults[e].v);
    assert FaultOk(s, e, s.faults[e]);
    Kinds(p);
    FreshFacts(s.vm, at, p, OWNED);
    n := Word(p, OWNED);
    LiveNotPending(s, at);
  }

  lemma FaultRenewKeeps(s: State, e: nat, p: Uint20)
    requires Inv(s) && Allowed(s, FaultRenew(e, p))
    ensures Inv(Next(s, FaultRenew(e, p)))
  {
    hide KindOf, Has, Fresh, Good, Contents, PendOk, FaultsOk;
    var at, n := FaultRenewMaps(s, e, p);
    var t := Next(s, FaultRenew(e, p));
    SetShared(s, t, at, n);
    SetSingle(s, t, at, n);
    FaultMoves(s, t, e, Fault(at.v, Renewed));
  }

  lemma FaultRenewEager(s: State, e: nat, p: Uint20)
    requires Inv(s) && Allowed(s, FaultRenew(e, p))
    ensures Abs(Next(s, FaultRenew(e, p))) == EagerNext(s, Abs(s), FaultRenew(e, p))
  {
    hide KindOf, Has, Fresh, Inv, Contents;
    var at, n := FaultRenewMaps(s, e, p);
    var t := Next(s, FaultRenew(e, p));
    forall l | l in t.vm.maps && !Hidden(t, l)
      ensures CellOf(t, l) == CellOf(s, l)
    {
      assert l == at || Source(t, l) == Source(s, l);
    }
  }

  lemma FaultCopyMaps(s: State, e: nat) returns (at: Loc)
    requires Inv(s) && Allowed(s, FaultCopy(e))
    ensures at == Loc(e, s.faults[e].v) && FaultOk(s, e, s.faults[e]) && at !in s.pend
    ensures forall l :: l in s.vm.maps && l != at && Ppn(s, l) == Ppn(s, at) ==> l in s.pend
    ensures forall l :: l in s.vm.maps && !Hidden(s, l) && l != at ==> Source(s, l) != Ppn(s, at)
    ensures var t := Next(s, FaultCopy(e)); t.vm.maps == s.vm.maps && Good(t.vm)
    ensures var t := Next(s, FaultCopy(e));
            forall p :: Contents(t.vm, p) == Contents(s.vm, if p == Ppn(s, at) then Ppn(s, Scratch(e)) else p)
  {
    hide KindOf, Has;
    at := Loc(e, s.faults[e].v);
    assert FaultOk(s, e, s.faults[e]);
    GoodHas(s.vm, at);
    LiveNotPending(s, at);
    OwnedAlone(s, at);
    assert Next(s, FaultCopy(e)).vm.data.Keys == s.vm.data.Keys;
  }

  /** A page that an environment may write is what no other page, and no fault, shows. */
  lemma OwnedAlone(s: State, at: Loc)
    requires Inv(s) && at in s.vm.maps && Kd(s, at) == Owned
    ensures forall l :: l in s.vm.maps && l != at && Ppn(s, l) == Ppn(s, at) ==> l in s.pend
    ensures forall l :: l in s.vm.maps && !Hidden(s, l) && l != at ==> Source(s, l) != Ppn(s, at)
  {
    hide KindOf, Has, Good, SharedOk;
    PendNotScratch(s);
    forall l | l in s.vm.maps && l != at && Ppn(s, l) == Ppn(s, at)
      ensures l in s.pend
    {
      assert DupPair(s, at, l);
    }
    forall l | l in s.vm.maps && !Hidden(s, l) && l != at
      ensures Source(s, l) != Ppn(s, at)
    {
      assert l.dir in s.faults ==> FaultOk(s, l.dir, s.faults[l.dir]);
    }
  }

  lemma FaultCopyKeeps(s: State, e: nat)
    requires Inv(s) && Allowed(s, FaultCopy(e))
    ensures Inv(Next(s, FaultCopy(e)))
  {
    hide KindOf, Has, Overwrite, Good, Contents, SharedOk, Single, PendOk, FaultsOk;
    var at := FaultCopyMaps(s, e);
    var t := Next(s, FaultCopy(e));
    FewerMaps(s, t);
    FaultMoves(s, t, e, Fault(at.v, Copied));
  }

  lemma FaultCopyEager(s: State, e: nat)
    requires Inv(s) && Allowed(s, FaultCopy(e))
    ensures Abs(Next(s, FaultCopy(e))) == EagerNext(s, Abs(s), FaultCopy(e))
  {
    hide KindOf, Has, Overwrite, Inv, Contents;
    var at := FaultCopyMaps(s, e);
    var t := Next(s, FaultCopy(e));
    forall l | l in t.vm.maps && !Hidden(t, l)
      ensures CellOf(t, l) == CellOf(s, l)
    {
      assert l == at || Source(t, l) == Source(s, l);
    }
  }

  lemma FaultDropKeeps(s: State, e: nat)
    requires Inv(s) && Allowed(s, FaultDrop(e))
    ensures Inv(Next(s, FaultDrop(e)))
  {
    hide KindOf, Has, Remove, Good, Contents, SharedOk, Single, PendOk, FaultsOk;
    RemoveFacts(s.vm, Scratch(e));
    var t := Next(s, FaultDrop(e));
    FewerMaps(s, t);
    DropRest(s, t, e);
  }

  lemma DropRest(s: State, t: State, e: nat)
    requires PendOk(s) && FaultsOk(s) && e in s.faults && t.vm.maps == s.vm.maps - {Scratch(e)}
    requires t.faults == s.faults - {e} && t.live == s.live && t.kids == s.kids && t.pend == s.pend
    ensures PendOk(t) && FaultsOk(t)
  {
    hide KindOf;
    PendNotScratch(s);
    PendKept(s, t);
    forall x | x in t.faults
      ensures SameAt(s, t, Scratch(x)) && SameAt(s, t, Loc(x, t.faults[x].v)) && x in t.live
    {
      assert FaultOk(s, x, s.faults[x]);
    }
    FaultsKept(s, t);
  }

  lemma FaultDropEager(s: State, e: nat)
    requires Inv(s) && Allowed(s, FaultDrop(e))
    ensures Abs(Next(s, FaultDrop(e))) == EagerNext(s, Abs(s), FaultDrop(e))
  {
    hide KindOf, Has, Remove, Inv, Contents;
    assert Good(s.vm) by { InvGood(s); }
    hide Good;
    RemoveFacts(s.vm, Scratch(e));
    var t := Next(s, FaultDrop(e));
    forall l | l in t.vm.maps && !Hidden(t, l)
      ensures CellOf(t, l) == CellOf(s, l)
    {
      assert Source(t, l) == Source(s, l);
    }
  }

  lemma InvGood(s: State)
    requires Inv(s)
    ensures Good(s.vm)
  {
  }

  // ---- Stores, and pages that come and go ----

  lemma WriteMaps(s: State, e: nat, v: nat, k: nat, x: Word)
    requires Inv(s) && Allowed(s, Write(e, v, k, x))
    ensures var l := Loc(e, v); Kd(s, l) == Shared || Kd(s, l) == Owned
    ensures var l := Loc(e, v); l !in s.pend && Source(s, l) == Ppn(s, l)
    ensures forall m :: m in s.vm.maps && !Hidden(s, m) ==>
      (Source(s, m) == Ppn(s, Loc(e, v)) <==>
         m == Loc(e, v) || (Kd(s, Loc(e, v)) == Shared && Kd(s, m) == Shared && Ppn(s, m) == Ppn(s, Loc(e, v))))
    ensures forall m :: m in s.vm.maps && Kd(s, Loc(e, v)) == Shared && Ppn(s, m) == Ppn(s, Loc(e, v)) ==>
              Kd(s, m) == Shared
    ensures var t := Next(s, Write(e, v, k, x)); t.vm.maps == s.vm.maps && Good(t.vm)
    ensures var t := Next(s, Write(e, v, k, x)); forall p ::
      Contents(t.vm, p) == if p == Ppn(s, Loc(e, v)) then Contents(s.vm, p)[k := x] else Contents(s.vm, p)
  {
    hide Has;
    var at := Loc(e, v);
    GoodHas(s.vm, at);
    LiveNotPending(s, at);
    assert Next(s, Write(e, v, k, x)).vm.data.Keys == s.vm.data.Keys;
    if Kd(s, at) == Owned {
      OwnedAlone(s, at);
    } else {
      forall m | m in s.vm.maps && !Hidden(s, m) && Source(s, m) != Ppn(s, m)
        ensures Source(s, m) != Ppn(s, at) && Kd(s, m) != Shared
      {
        assert FaultOk(s, m.dir, s.faults[m.dir]);
      }
    }
  }

  lemma WriteKeeps(s: State, e: nat, v: nat, k: nat, x: Word)
    requires Inv(s) && Allowed(s, Write(e, v, k, x))
    ensures Inv(Next(s, Write(e, v, k, x)))
  {
    hide KindOf, Has, Stored, Good, Contents, SharedOk, Single, PendOk, FaultsOk;
    WriteMaps(s, e, v, k, x);
    var t := Next(s, Write(e, v, k, x));
    FewerMaps(s, t);
    PendKept(s, t);
    OnlyData(s, t);
  }

  lemma OnlyData(s: State, t: State)
    requires FaultsOk(s) && t.vm.maps == s.vm.maps && t.live == s.live && t.faults == s.faults
    ensures FaultsOk(t)
  {
    hide KindOf;
    forall e | e in t.faults
      ensures FaultOk(t, e, t.faults[e])
    {
      assert FaultOk(s, e, s.faults[e]);
    }
  }

  lemma WriteCells(s: State, e: nat, v: nat, k: nat, x: Word)
    requires Inv(s) && Allowed(s, Write(e, v, k, x))
    ensures var t := Next(s, Write(e, v, k, x)); t.vm.maps == s.vm.maps && !Hidden(s, Loc(e, v))
    ensures var t := Next(s, Write(e, v, k, x));
      forall l :: l in t.vm.maps && !Hidden(t, l) ==>
        CellOf(t, l) == if l == Loc(e, v) || Grouped(CellOf(s, Loc(e, v)), CellOf(s, l))
                        then CellOf(s, l).(content := CellOf(s, l).content[k := x])
                        else CellOf(s, l)
    ensures CellOf(s, Loc(e, v)).writable
  {
    hide KindOf, Has, Stored, Good, Contents, Inv;
    WriteMaps(s, e, v, k, x);
    var t := Next(s, Write(e, v, k, x));
    assert forall l :: l in t.vm.maps ==> Source(t, l) == Source(s, l);
  }

  predicate Grouped(a: Cell, b: Cell) {
    a.group.Some? && b.group == a.group
  }

  lemma WriteEager(s: State, e: nat, v: nat, k: nat, x: Word)
    requires Inv(s) && Allowed(s, Write(e, v, k, x))
    ensures Abs(Next(s, Write(e, v, k, x))) == EagerNext(s, Abs(s), Write(e, v, k, x))
  {
    hide KindOf, Has, Stored, Good, Contents, Inv, CellOf;
    WriteCells(s, e, v, k, x);
    var t, at := Next(s, Write(e, v, k, x)), Loc(e, v);
    forall l | l in t.vm.maps && !Hidden(t, l)
      ensures Together(Abs(s), at, l) <==> l == at || Grouped(CellOf(s, at), CellOf(s, l))
    {
      assert Abs(s)[l] == CellOf(s, l) && Abs(s)[at] == CellOf(s, at);
    }
  }

  lemma AllocMaps(s: State, e: nat, d: nat, v: nat, p: Uint20, perm: Flags) returns (n: Word)
    requires Inv(s) && Allowed(s, Alloc(e, d, v, p, perm))
    ensures n == Word(p, perm | PTE_P) && (KindOf(n) == Shared ==> Has(n, PTE_W)) && Loc(d, v) !in s.pend
    ensures d !in s.faults
    ensures forall m :: m in s.pend ==> m != Loc(d, v) && Loc(s.pend[m], m.v) != Loc(d, v)
    ensures forall l :: l in s.vm.maps ==> Ppn(s, l) != p
    ensures var t := Next(s, Alloc(e, d, v, p, perm));
            t.vm.maps == s.vm.maps[Loc(d, v) := n] && Good(t.vm)
            && Contents(t.vm, p) == ZeroFrame()
    ensures var t := Next(s, Alloc(e, d, v, p, perm));
      forall l :: l in s.vm.maps && l != Loc(d, v) ==> Contents(t.vm, Ppn(s, l)) == Contents(s.vm, Ppn(s, l))
  {
    hide Fresh, Good, Contents, SharedOk, Single;
    FreshFacts(s.vm, Loc(d, v), p, perm);
    n := Word(p, perm | PTE_P);
    SamePerm(p, perm);
    forall m | m in s.pend
      ensures m != Loc(d, v) && Loc(s.pend[m], m.v) != Loc(d, v)
    {
      assert PendingOk(s, m, Loc(s.pend[m], m.v));
      assert s.pend[m] == e ==> Dupping(s, e);
    }
    assert d in s.faults ==> FaultOk(s, d, s.faults[d]);
  }

  lemma SamePerm(p: Uint20, perm: Flags)
    ensures KindOf(Word(p, perm | PTE_P)) == KindOf(Word(p, perm))
    ensures (Has(Word(p, perm), PTE_W) ==> Has(Word(p, perm | PTE_P), PTE_W))
  {
    assert (perm | PTE_P) & PTE_SHARE == perm & PTE_SHARE;
    assert (perm | PTE_P) & PTE_W == perm & PTE_W;
    assert (perm | PTE_P) & PTE_COW == perm & PTE_COW;
  }

  lemma AllocKeeps(s: State, e: nat, d: nat, v: nat, p: Uint20, perm: Flags)
    requires Inv(s) && Allowed(s, Alloc(e, d, v, p, perm))
    ensures Inv(Next(s, Alloc(e, d, v, p, perm)))
  {
    hide KindOf, Has, Fresh, Good, Contents, PendOk, FaultsOk;
    var n := AllocMaps(s, e, d, v, p, perm);
    var t := Next(s, Alloc(e, d, v, p, perm));
    SetShared(s, t, Loc(d, v), n);
    SetSingle(s, t, Loc(d, v), n);
    hide SharedOk, Single;
    PendKept(s, t);
    ElsewhereFaults(s, t, Loc(d, v));
  }

  /** Only an entry of an environment that is in no fault changes. */
  lemma ElsewhereFaults(s: State, t: State, at: Loc)
    requires FaultsOk(s) && at.dir !in s.faults && at.v != PFTEMP_V && t.live == s.live && t.faults == s.faults
    requires forall l :: l != at ==> (l in t.vm.maps <==> l in s.vm.maps) && SameAt(s, t, l)
    ensures FaultsOk(t)
  {
    hide KindOf;
    forall e | e in t.faults
      ensures FaultOk(t, e, t.faults[e])
    {
      assert FaultOk(s, e, s.faults[e]);
      assert SameAt(s, t, Scratch(e)) && SameAt(s, t, Loc(e, s.faults[e].v));
    }
  }

  lemma AllocEager(s: State, e: nat, d: nat, v: nat, p: Uint20, perm: Flags)
    requires Inv(s) && Allowed(s, Alloc(e, d, v, p, perm))
    ensures Abs(Next(s, Alloc(e, d, v, p, perm))) == EagerNext(s, Abs(s), Alloc(e, d, v, p, perm))
  {
    hide KindOf, Has, Fresh, Good, Contents, Inv, CellOf, Source;
    var n := AllocMaps(s, e, d, v, p, perm);
    AllocCells(s, e, d, v, p, perm);
  }

  lemma AllocCells(s: State, e: nat, d: nat, v: nat, p: Uint20, perm: Flags)
    requires Inv(s) && Allowed(s, Alloc(e, d, v, p, perm))
    ensures var t := Next(s, Alloc(e, d, v, p, perm));
      forall l :: l in t.vm.maps && !Hidden(t, l) ==>
        (l != Loc(d, v) ==> l in s.vm.maps) &&
        CellOf(t, l) == if l == Loc(d, v) then CellFor(KindOf(Word(p, perm | PTE_P)), p, ZeroFrame()) else CellOf(s, l)
  {
    hide KindOf, Has, Fresh, Good, Contents, Inv;
    var n := AllocMaps(s, e, d, v, p, perm);
    var t, at := Next(s, Alloc(e, d, v, p, perm)), Loc(d, v);
    forall l | l in t.vm.maps && !Hidden(t, l)
      ensures l != at ==> l in s.vm.maps && Source(t, l) == Source(s, l)
      ensures CellOf(t, l) == if l == at then CellFor(KindOf(n), p, ZeroFrame()) else CellOf(s, l)
    {
      assert l != at ==> Source(t, l) == Source(s, l);
    }
  }

  lemma UnmapKeeps(s: State, e: nat, v: nat)
    requires Inv(s) && Allowed(s, Unmap(e, v))
    ensures Inv(Next(s, Unmap(e, v)))
  {
    hide KindOf, Has, Remove, Good, Contents, SharedOk, Single, PendOk, FaultsOk;
    RemoveFacts(s.vm, Loc(e, v));
    var t := Next(s, Unmap(e, v));
    FewerMaps(s, t);
    NotDupping(s, e);
    PendKept(s, t);
    ElsewhereFaults(s, t, Loc(e, v));
  }

  /** Neither entry of a duppage under way is of an environment that runs and is in no duppage. */
  lemma NotDupping(s: State, e: nat)
    requires Inv(s) && e in s.live && !Dupping(s, e)
    ensures forall m :: m in s.pend ==> m.dir != e && s.pend[m] != e
  {
    hide KindOf, Good, SharedOk, Single, FaultsOk;
    forall m | m in s.pend
      ensures m.dir != e && s.pend[m] != e
    {
      assert PendingOk(s, m, Loc(s.pend[m], m.v));
      assert s.pend[m] == e ==> Dupping(s, e);
    }
  }

  lemma UnmapEager(s: State, e: nat, v: nat)
    requires Inv(s) && Allowed(s, Unmap(e, v))
    ensures Abs(Next(s, Unmap(e, v))) == EagerNext(s, Abs(s), Unmap(e, v))
  {
    hide KindOf, Has, Remove, Good, Contents, Inv;
    InvGood(s);
    RemoveFacts(s.vm, Loc(e, v));
    var t := Next(s, Unmap(e, v));
    forall l | l in t.vm.maps && !Hidden(t, l)
      ensures CellOf(t, l) == CellOf(s, l)
    {
      assert Source(t, l) == Source(s, l);
    }
  }

  lemma ExitKeeps(s: State, e: nat)
    requires Inv(s) && Allowed(s, Exit(e))
    ensures Inv(Next(s, Exit(e)))
  {
    hide KindOf, Has, RemoveAll, Good, Contents, SharedOk, Single, PendOk, FaultsOk;
    RemoveAllFacts(s.vm, e);
    var t := Next(s, Exit(e));
    FewerMaps(s, t);
    ExitPend(s, t, e);
    ExitFaults(s, t, e);
  }

  /** The duppages under way of other parents stay. */
  lemma ExitPend(s: State, t: State, e: nat)
    requires Inv(s) && e in s.live && t.vm.maps == (map l | l in s.vm.maps && l.dir != e :: s.vm.maps[l])
    requires t == Next(s, Exit(e))
    ensures PendOk(t)
  {
    hide KindOf, Has, RemoveAll, Good, Contents, SharedOk, Single, FaultsOk;
    forall m | m in t.pend
      ensures PendingOk(t, m, Loc(t.pend[m], m.v))
    {
      assert PendingOk(s, m, Loc(s.pend[m], m.v));
    }
  }

  lemma ExitFaults(s: State, t: State, e: nat)
    requires FaultsOk(s) && t.vm.maps == (map l | l in s.vm.maps && l.dir != e :: s.vm.maps[l])
    requires t.faults == s.faults - {e} && t.live == s.live - {e}
    ensures FaultsOk(t)
  {
    hide KindOf;
    forall x | x in t.faults
      ensures SameAt(s, t, Scratch(x)) && SameAt(s, t, Loc(x, t.faults[x].v)) && x in t.live
    {
      assert FaultOk(s, x, s.faults[x]);
    }
    FaultsKept(s, t);
  }

  /** With the parent gone, the child's page is the copy. */
  lemma ExitCells(s: State, e: nat, l: Loc)
    requires Inv(s) && Allowed(s, Exit(e)) && l in s.vm.maps && l.dir != e && !Hidden(Next(s, Exit(e)), l)
    ensures var t, from := Next(s, Exit(e)), Origin(s, e, l);
            from in s.vm.maps && !Hidden(s, from) && l in t.vm.maps && CellOf(t, l) == CellOf(s, from)
  {
    hide KindOf, Has, RemoveAll, Good, Contents, SharedOk, Single;
    InvGood(s);
    RemoveAllFacts(s.vm, e);
    var t := Next(s, Exit(e));
    assert Contents(t.vm, Ppn(t, l)) == Contents(s.vm, Ppn(s, l));
    if l in s.pend {
      assert PendingOk(s, l, Loc(s.pend[l], l.v));
      LiveNotPending(s, Loc(e, l.v));
      NotInFault(s, l.dir);
    } else {
      assert Source(t, l) == Source(s, l);
    }
  }

  lemma NotInFault(s: State, c: nat)
    requires Inv(s) && c !in s.live
    ensures c !in s.faults
  {
    hide Good, SharedOk, Single, PendOk;
    assert c in s.faults ==> FaultOk(s, c, s.faults[c]);
  }

  lemma ExitEager(s: State, e: nat)
    requires Inv(s) && Allowed(s, Exit(e))
    ensures Abs(Next(s, Exit(e))) == EagerNext(s, Abs(s), Exit(e))
  {
    hide KindOf, Has, RemoveAll, Good, Contents, Inv, CellOf;
    var t := Next(s, Exit(e));
    InvGood(s);
    RemoveAllFacts(s.vm, e);
    forall l | l in s.vm.maps && l.dir != e && !Hidden(t, l)
      ensures Origin(s, e, l) in Abs(s) && CellOf(t, l) == Abs(s)[Origin(s, e, l)]
    {
      ExitCells(s, e, l);
    }
    forall l | l in Abs(s).Keys + s.pend.Keys && l.dir != e && Origin(s, e, l) in Abs(s)
      ensures l in s.vm.maps && !Hidden(t, l)
    {
      if l in s.pend { PendMapped(s, l); }
    }
  }

  lemma PendMapped(s: State, m: Loc)
    requires Inv(s) && m in s.pend
    ensures m in s.vm.maps && m.v != PFTEMP_V
  {
    hide Kd, Good, SharedOk, Single, FaultsOk;
    assert PendingOk(s, m, Loc(s.pend[m], m.v));
  }

  lemma KillKeeps(s: State, e: nat, c: nat)
    requires Inv(s) && Allowed(s, Kill(e, c))
    ensures Inv(Next(s, Kill(e, c)))
  {
    hide KindOf, Has, RemoveAll, Good, Contents, SharedOk, Single, PendOk, FaultsOk;
    RemoveAllFacts(s.vm, c);
    var t := Next(s, Kill(e, c));
    FewerMaps(s, t);
    KillPend(s, e, c);
    hide SharedOk, Single;
    PendKept(s, t);
    KillFaults(s, t, c);
  }

  /** Neither entry of a duppage under way is the child's. */
  lemma KillPend(s: State, e: nat, c: nat)
    requires PendOk(s) && Apart(s) && c in s.kids && s.kids[c] == e && !Dupping(s, e)
    ensures forall m :: m in s.pend ==> m.dir != c && s.pend[m] != c
  {
    hide KindOf;
    forall m | m in s.pend
      ensures m.dir != c && s.pend[m] != c
    {
      assert PendingOk(s, m, Loc(s.pend[m], m.v));
      assert s.pend[m] == e ==> Dupping(s, e);
    }
  }

  lemma KillFaults(s: State, t: State, c: nat)
    requires FaultsOk(s) && c !in s.live && t.vm.maps == (map l | l in s.vm.maps && l.dir != c :: s.vm.maps[l])
    requires t.faults == s.faults && t.live == s.live
    ensures FaultsOk(t)
  {
    hide KindOf;
    forall x | x in t.faults
      ensures SameAt(s, t, Scratch(x)) && SameAt(s, t, Loc(x, t.faults[x].v)) && x in t.live
    {
      assert FaultOk(s, x, s.faults[x]);
    }
    FaultsKept(s, t);
  }

  lemma KillEager(s: State, e: nat, c: nat)
    requires Inv(s) && Allowed(s, Kill(e, c))
    ensures Abs(Next(s, Kill(e, c))) == EagerNext(s, Abs(s), Kill(e, c))
  {
    hide KindOf, Has, RemoveAll, Good, Contents, Inv;
    InvGood(s);
    RemoveAllFacts(s.vm, c);
    var t := Next(s, Kill(e, c));
    forall l | l in t.vm.maps && !Hidden(t, l)
      ensures CellOf(t, l) == CellOf(s, l)
    {
      assert Source(t, l) == Source(s, l);
    }
  }

  lemma ExoforkKeeps(s: State, e: nat, c: nat)
    requires Inv(s) && Allowed(s, Exofork(e, c))
    ensures Inv(Next(s, Exofork(e, c))) && Abs(Next(s, Exofork(e, c))) == Abs(s)
  {
    hide KindOf, Has, Good, Contents, PendOk, FaultsOk;
    var t := Next(s, Exofork(e, c));
    FewerMaps(s, t);
    PendKept(s, t);
    OnlyData(s, t);
    SameAbs(s, t);
  }

  lemma StartKeeps(s: State, e: nat, c: nat)
    requires Inv(s) && Allowed(s, Start(e, c))
    ensures Inv(Next(s, Start(e, c))) && Abs(Next(s, Start(e, c))) == Abs(s)
  {
    hide KindOf, Has, Good, Contents, PendOk, FaultsOk;
    var t := Next(s, Start(e, c));
    FewerMaps(s, t);
    StartPend(s, t, e, c);
    FaultsKeptLive(s, t);
    SameAbs(s, t);
  }

  lemma StartPend(s: State, t: State, e: nat, c: nat)
    requires PendOk(s) && c in s.kids && s.kids[c] == e && !Dupping(s, e)
    requires t == s.(live := s.live + {c}, kids := s.kids - {c})
    ensures PendOk(t)
  {
    hide KindOf;
    forall m | m in s.pend
      ensures m.dir != c
    {
      assert PendingOk(s, m, Loc(s.pend[m], m.v));
      assert s.pend[m] == e ==> Dupping(s, e);
    }
    PendKept(s, t);
  }

  lemma FaultsKeptLive(s: State, t: State)
    requires FaultsOk(s) && t.vm == s.vm && t.faults == s.faults && s.live <= t.live
    ensures FaultsOk(t)
  {
    hide KindOf;
    forall e | e in t.faults
      ensures FaultOk(t, e, t.faults[e])
    {
      assert FaultOk(s, e, s.faults[e]);
    }
  }

  lemma SameAbs(s: State, t: State)
    requires t.vm == s.vm && t.pend == s.pend && t.faults == s.faults
    ensures Abs(t) == Abs(s)
  {
    hide KindOf, Contents;
    forall l | l in s.vm.maps
      ensures CellOf(t, l) == CellOf(s, l)
    {
    }
  }

  // ---- The refinement ----

  lemma StepKeeps(s: State, a: Step)
    requires Inv(s) && Allowed(s, a)
    ensures Inv(Next(s, a))
  {
    hide Inv, Next, Allowed;
    match a
    case Exofork(e, c) => ExoforkKeeps(s, e, c);
    case DupFirst(e, c, v) => DupFirstKeeps(s, e, c, v);
    case DupSecond(e, c, v) => DupSecondKeeps(s, e, c, v);
    case Start(e, c) => StartKeeps(s, e, c);
    case FaultKeep(e, v) => FaultKeepKeeps(s, e, v);
    case FaultRenew(e, p) => FaultRenewKeeps(s, e, p);
    case FaultCopy(e) => FaultCopyKeeps(s, e);
    case FaultDrop(e) => FaultDropKeeps(s, e);
    case Write(e, v, k, x) => WriteKeeps(s, e, v, k, x);
    case Alloc(e, d, v, p, perm) => AllocKeeps(s, e, d, v, p, perm);
    case Unmap(e, v) => UnmapKeeps(s, e, v);
    case Kill(e, c) => KillKeeps(s, e, c);
    case Exit(e) => ExitKeeps(s, e);
  }

  /** Each step is the eager machine's. */
  lemma StepIsEager(s: State, a: Step)
    requires Inv(s) && Allowed(s, a)
    ensures Abs(Next(s, a)) == EagerNext(s, Abs(s), a)
  {
    hide Inv, Next, Allowed, Abs;
    match a
    case Exofork(e, c) => ExoforkKeeps(s, e, c);
    case DupFirst(e, c, v) => DupFirstEager(s, e, c, v);
    case DupSecond(e, c, v) => DupSecondEager(s, e, c, v);
    case Start(e, c) => StartKeeps(s, e, c);
    case FaultKeep(e, v) => FaultKeepEager(s, e, v);
    case FaultRenew(e, p) => FaultRenewEager(s, e, p);
    case FaultCopy(e) => FaultCopyEager(s, e);
    case FaultDrop(e) => FaultDropEager(s, e);
    case Write(e, v, k, x) => WriteEager(s, e, v, k, x);
    case Alloc(e, d, v, p, perm) => AllocEager(s, e, d, v, p, perm);
    case Unmap(e, v) => UnmapEager(s, e, v);
    case Kill(e, c) => KillEager(s, e, c);
    case Exit(e) => ExitEager(s, e);
  }

  /** A run of the copy-on-write machine, and next to it the eager machine's. */
  ghost predicate IsRun(ss: seq<State>, steps: seq<Step>) {
    && |ss| == |steps| + 1 && Inv(ss[0])
    && forall i :: 0 <= i < |steps| ==> Allowed(ss[i], steps[i]) && ss[i + 1] == Next(ss[i], steps[i])
  }

  ghost predicate IsEagerRun(ss: seq<State>, steps: seq<Step>, gs: seq<Eager>)
    requires IsRun(ss, steps)
  {
    && |gs| == |ss| && gs[0] == Abs(ss[0])
    && forall i :: 0 <= i < |steps| ==> gs[i + 1] == EagerNext(ss[i], gs[i], steps[i])
  }

  lemma {:induction false} RunIsEager(ss: seq<State>, steps: seq<Step>, gs: seq<Eager>, n: nat)
    requires IsRun(ss, steps) && IsEagerRun(ss, steps, gs) && n < |ss|
    ensures Inv(ss[n]) && gs[n] == Abs(ss[n])
  {
    hide Inv, Next, Allowed, Abs, EagerNext;
    if n > 0 {
      RunIsEager(ss, steps, gs, n - 1);
      StepKeeps(ss[n - 1], steps[n - 1]);
      StepIsEager(ss[n - 1], steps[n - 1]);
    }
  }

  /** At any point of any run an environment reads, on each of its pages, what it would read had
      every fork copied the pages: except in the page that its own pgfault is about to fill.  And
      a store to the page succeeds there exactly when it does here, at once or after the fault. */
  lemma ReadsAsIfCopied(ss: seq<State>, steps: seq<Step>, gs: seq<Eager>, n: nat, l: Loc)
    requires IsRun(ss, steps) && IsEagerRun(ss, steps, gs) && n < |ss|
    requires l.dir in ss[n].live && l.v != PFTEMP_V
    requires (l.dir in ss[n].faults ==> ss[n].faults[l.dir] != Fault(l.v, Renewed))
    ensures l in gs[n] <==> l in ss[n].vm.maps
    ensures l in gs[n] ==> gs[n][l].content == Contents(ss[n].vm, ss[n].vm.maps[l].ppn)
    ensures l in gs[n] ==> (gs[n][l].writable <==> Has(ss[n].vm.maps[l], PTE_W) || Kd(ss[n], l) == Lazy)
  {
    hide Inv, Contents, Has;
    RunIsEager(ss, steps, gs, n);
    LiveNotPending(ss[n], l);
    if l in ss[n].vm.maps {
      assert gs[n][l] == CellOf(ss[n], l);
      WritableIs(ss[n], l);
    }
  }

  lemma WritableIs(s: State, l: Loc)
    requires Inv(s) && l in s.vm.maps
    ensures Kd(s, l) != Fixed <==> Has(s.vm.maps[l], PTE_W) || Kd(s, l) == Lazy
  {
    hide Has;
  }

  /** The key invariant, at any point of any run: a page that is writable and not shared has no
      other mapping, but the one that a duppage under way has just made in a child that does not run. */
  lemma WritableIsSingle(ss: seq<State>, steps: seq<Step>, gs: seq<Eager>, n: nat, l: Loc, m: Loc)
    requires IsRun(ss, steps) && IsEagerRun(ss, steps, gs) && n < |ss|
    requires l in ss[n].vm.maps && m in ss[n].vm.maps && l != m && ss[n].vm.maps[l].ppn == ss[n].vm.maps[m].ppn
    requires Has(ss[n].vm.maps[l], PTE_W) && !Has(ss[n].vm.maps[l], PTE_SHARE)
    ensures m in ss[n].pend && ss[n].pend[m] == l.dir && m.v == l.v && m.dir !in ss[n].live
  {
    RunIsEager(ss, steps, gs, n);
    hide Has, Good, FaultsOk, SharedOk, Abs, EagerNext, Allowed, Next;
    var s := ss[n];
    assert Kd(s, l) == Owned;
    assert DupPair(s, l, m);
    assert PendingOk(s, m, l);
  }

  /** A loaded program: pages of its own, writable or not, none under PFTEMP. */
  lemma LoadedIsInv(s: State)
    requires Good(s.vm) && s.kids == map[] && s.pend == map[] && s.faults == map[]
    requires forall l :: l in s.vm.maps ==> (Kd(s, l) == Owned || Kd(s, l) == Fixed) && l.v != PFTEMP_V
    requires forall l, m :: l in s.vm.maps && m in s.vm.maps && l != m ==> Ppn(s, l) != Ppn(s, m)
    ensures Inv(s)
  {
  }

  // ---- The steps as system calls ----

  /** The page call, or the store, that a step is; None for steps that change no address space, and
      for pgfault's copy of a page. */
  function CallOf(s: State, a: Step): Option<Call> {
    match a
    case DupFirst(e, c, v) =>
      if Loc(e, v) in s.vm.maps then Some(PageMap(Loc(e, v), Loc(c, v), ChildPerm(Kd(s, Loc(e, v))))) else None
    case DupSecond(e, c, v) => Some(PageMap(Loc(e, v), Loc(e, v), LAZY))
    case FaultKeep(e, v) => Some(PageMap(Loc(e, v), Scratch(e), FIXED))
    case FaultRenew(e, p) => if e in s.faults then Some(PageAlloc(Loc(e, s.faults[e].v), p, OWNED)) else None
    case FaultDrop(e) => Some(PageUnmap(Scratch(e)))
    case Write(e, v, k, x) => Some(UserStore(Loc(e, v), k, x))
    case Alloc(e, t, v, p, perm) => Some(PageAlloc(Loc(t, v), p, perm))
    case Unmap(e, v) => Some(PageUnmap(Loc(e, v)))
    case Kill(e, c) => Some(EnvFree(c))
    case Exit(e) => Some(EnvFree(e))
    case _ => None
  }

  /** Each step does to the address spaces what the kernel does for its call. */
  lemma StepIsCall(s: State, a: Step)
    requires Inv(s) && Allowed(s, a) && CallOf(s, a).Some?
    requires a.Write? ==> Has(s.vm.maps[Loc(a.e, a.v)], PTE_U)
    ensures Next(s, a).vm == Do(s.vm, CallOf(s, a).value)
  {
    hide Enter, Fresh, Remove, RemoveAll, Has, KindOf, Good, Single, PendOk, FaultsOk, SharedOk;
    match a
    case DupFirst(e, c, v) => DupCalls(s, e, c, v);
    case DupSecond(e, c, v) => LazyCall();
    case FaultKeep(e, v) => FixedCall();
    case FaultRenew(e, p) => OwnedPerm(p);
    case Write(e, v, k, x) => StoreCall(s, Loc(e, v));
    case _ =>
  }

  lemma LazyCall()
    ensures PermOk(LAZY) && LAZY & PTE_W == 0 && LAZY | PTE_P == LAZY
  {
  }

  lemma FixedCall()
    ensures PermOk(FIXED) && FIXED & PTE_W == 0 && FIXED | PTE_P == FIXED
  {
  }

  lemma StoreCall(s: State, l: Loc)
    requires Inv(s) && l in s.vm.maps && Has(s.vm.maps[l], PTE_W) && Has(s.vm.maps[l], PTE_U)
    ensures s.vm.maps[l].ppn as nat in s.vm.data && Has(s.vm.maps[l], PTE_W | PTE_U)
  {
    hide Single, PendOk, FaultsOk, SharedOk;
    GoodHas(s.vm, l);
    BothBits(s.vm.maps[l].flags);
  }

  lemma BothBits(flags: Flags)
    ensures flags & PTE_W == PTE_W && flags & PTE_U == PTE_U ==> flags & (PTE_W | PTE_U) == PTE_W | PTE_U
  {
  }

  // ---- The library functions ----

  /** Which calls of fork find memory: the mapping of each page in the child, that of the parent's
      own page, and the child's exception stack. */
  datatype Luck = Luck(first: nat -> bool, second: nat -> bool, stack: bool)

  /** A page that fork duplicates. */
  predicate Copyable(f: Flat, e: nat, v: nat) {
    v < USTACKTOP_V && Loc(e, v) in f.maps && Has(f.maps[Loc(e, v)], PTE_U)
  }

  /** One that duppage maps twice, and for which it panics when a call fails. */
  predicate Twice(f: Flat, e: nat, v: nat) {
    Copyable(f, e, v) && (KindOf(f.maps[Loc(e, v)]) == Owned || KindOf(f.maps[Loc(e, v)]) == Lazy)
  }

  /** Some call below `n` fails that is not ignored. */
  ghost predicate Fails(f: Flat, e: nat, n: nat, luck: Luck) {
    exists v: nat :: v < n && Twice(f, e, v) && !(luck.first(v) && luck.second(v))
  }

  /** The entries that fork has copied when it has gone through the pages below `n`. */
  predicate ToCopy(f: Flat, e: nat, c: nat, n: nat, luck: Luck, l: Loc) {
    l.dir == c && l.v < n && Copyable(f, e, l.v) && luck.first(l.v)
  }

  /** `g'` is `g` with the child's copies of the parent's pages below `n`. */
  ghost predicate CopiedUpTo(f: Flat, g: Eager, g': Eager, e: nat, c: nat, n: nat, luck: Luck) {
    forall l :: (l in g' <==> l in g || ToCopy(f, e, c, n, luck, l)) &&
                (l in g' ==>
                   if ToCopy(f, e, c, n, luck, l) then Loc(e, l.v) in g && g'[l] == g[Loc(e, l.v)] else g'[l] == g[l])
  }

  /** The system calls that fork and pgfault make, with no other environment's in between. */
  class Environments {
    var vm: Flat
    ghost var live: set<nat>
    ghost var kids: map<nat, nat>
    ghost var pend: map<Loc, nat>
    ghost var faults: map<nat, Fault>
    var upcalls: map<nat, Uint32>    // env_pgfault_upcall of the environments that have one

    ghost function S(): State
      reads this
    {
      State(vm, live, kids, pend, faults)
    }

    constructor (vm: Flat, ghost live: set<nat>)
      ensures S() == State(vm, live, map[], map[], map[]) && upcalls == map[]
    {
      this.vm, this.live, kids, pend, faults, upcalls := vm, live, map[], map[], map[], map[];
    }

    /** `memory`: there is a page for the page table, should one be needed. */
    method SysPageMap(from: Loc, at: Loc, perm: Flags, memory: bool) returns (r: int)
      modifies this`vm
      ensures r == if !MapOk(old(vm), from, perm) then -E_INVAL else if !memory then -E_NO_MEM else 0
      ensures vm == if r == 0 then Do(old(vm), PageMap(from, at, perm)) else old(vm)
    {
      if !MapOk(vm, from, perm) { return -E_INVAL; }
      if !memory { return -E_NO_MEM; }
      vm := Enter(vm, at, Word(vm.maps[from].ppn, perm | PTE_P));
      return 0;
    }

    /** `p` is the page that is found if there is one. */
    method SysPageAlloc(at: Loc, perm: Flags, p: Uint20, memory: bool) returns (r: int)
      requires PermOk(perm)
      modifies this`vm
      ensures r == if memory then 0 else -E_NO_MEM
      ensures vm == if r == 0 then Fresh(old(vm), at, p, perm) else old(vm)
    {
      if !memory { return -E_NO_MEM; }
      vm := Fresh(vm, at, p, perm);
      return 0;
    }

    method SysPageUnmap(at: Loc) returns (r: int)
      modifies this`vm
      ensures r == 0 && vm == Remove(old(vm), at)
    {
      vm := Remove(vm, at);
      r := 0;
    }

    /** pgfault.  `p` is the page that sys_page_alloc will find; `first` and `second` tell whether its
        two calls find memory.  Afterwards the page can be written, and no environment reads anything
        else than before. */
    method Pgfault(e: nat, v: nat, write: bool, p: Uint20, first: bool, second: bool) returns (panicked: bool)
      requires Inv(S()) && e in live && e !in faults && v != PFTEMP_V && Loc(e, v) in vm.maps && p as nat !in vm.data
      requires write ==> !Has(vm.maps[Loc(e, v)], PTE_W)
      modifies this`vm, this`faults
      ensures panicked <==> !(write && Has(old(vm).maps[Loc(e, v)], PTE_COW) && first && second)
      ensures !(write && Has(old(vm).maps[Loc(e, v)], PTE_COW)) ==> panicked && S() == old(S())
      ensures !panicked ==> Inv(S()) && Abs(S()) == old(Abs(S())) && S() == old(S()).(vm := vm)
      ensures !panicked ==> vm.maps == old(vm).maps[Loc(e, v) := Word(p, OWNED)]
    {
      hide Inv, Abs, Enter, Fresh, Remove, Overwrite;
      var at := Loc(e, v);
      if !(write && Has(vm.maps[at], PTE_COW)) {
        return true;
      }
      ghost var s0 := S();
      LazyWhenFaulting(s0, at);
      var r := SysPageMap(at, Scratch(e), FIXED, first);
      if r < 0 { return true; }
      faults := faults[e := Fault(v, Kept)];
      ghost var s1 := S();
      assert s1 == Next(s0, FaultKeep(e, v));
      r := SysPageAlloc(at, OWNED, p, second);
      if r < 0 { return true; }
      faults := faults[e := Fault(v, Renewed)];
      Serve(s0, s1, e, v, p);
      vm := Overwrite(vm, at, Scratch(e));
      faults := faults[e := Fault(v, Copied)];
      ghost var s3 := S();
      r := SysPageUnmap(Scratch(e));
      faults := faults - {e};
      assert s0.faults[e := Fault(v, Kept)][e := Fault(v, Renewed)][e := Fault(v, Copied)] - {e} == s0.faults;
      panicked := false;
    }

    /** duppage.  `first` and `second` tell whether its mappings find memory.  A failed call is ignored
        for a shared or a read-only page, which the child then lacks. */
    method Duppage(e: nat, c: nat, v: nat, first: bool, second: bool) returns (panicked: bool)
      requires Inv(S()) && Allowed(S(), DupFirst(e, c, v))
      modifies this`vm, this`pend
      ensures panicked <==> Twice(old(vm), e, v) && !(first && second)
      ensures !panicked ==> Inv(S()) && S() == old(S()).(vm := vm) && Elsewhere(old(vm), vm, e, c, v)
      ensures !panicked ==> (Loc(c, v) in vm.maps <==> first)
      ensures !panicked ==> Abs(S()) == if first then Copy(old(Abs(S())), Loc(e, v), Loc(c, v)) else old(Abs(S()))
    {
      hide Inv, Abs, Enter, Has, Dupping;
      var addr, to := Loc(e, v), Loc(c, v);
      ghost var s0 := S();
      DupCalls(s0, e, c, v);
      var w := vm.maps[addr];
      var r: int;
      if Has(w, PTE_SHARE) {
        r := SysPageMap(addr, to, PTE_SYSCALL, first);
        assert r == 0 ==> S() == Next(s0, DupFirst(e, c, v));
      } else if Has(w, PTE_W) || Has(w, PTE_COW) {
        r := SysPageMap(addr, to, LAZY, first);
        if r < 0 { return true; }
        if Has(w, PTE_W) { pend := pend[to := e]; }
        ghost var s1 := S();
        assert s1 == Next(s0, DupFirst(e, c, v));
        DupCallsSecond(s0, e, c, v);
        r := SysPageMap(addr, addr, LAZY, second);
        if r < 0 { return true; }
        pend := pend - {to};
        assert S() == Next(s1, DupSecond(e, c, v));
        assert pend == s0.pend;
      } else {
        r := SysPageMap(addr, to, FIXED, first);
        assert r == 0 ==> S() == Next(s0, DupFirst(e, c, v));
      }
      panicked := false;
    }

    /** fork's loop: the pages below USTACKTOP that user code may access. */
    method DupAll(e: nat, c: nat, p: Uint20, luck: Luck) returns (panicked: bool)
      requires Inv(S()) && e in live && e !in faults && c in kids && kids[c] == e && !Dupping(S(), e)
      requires p as nat !in vm.data && forall l :: l in vm.maps ==> l.dir != c
      modifies this`vm, this`pend
      ensures panicked <==> Fails(old(vm), e, USTACKTOP_V, luck)
      ensures !panicked ==> Inv(S()) && S() == old(S()).(vm := vm) && p as nat !in vm.data
      ensures !panicked ==> CopiedUpTo(old(vm), old(Abs(S())), Abs(S()), e, c, USTACKTOP_V, luck)
    {
      hide Inv, Abs, Has, Dupping, Good, Elsewhere, CopiedUpTo, Copy;
      ghost var s0 := S();
      NothingCopied(s0.vm, Abs(s0), e, c, luck);
      for v := 0 to USTACKTOP_V
        invariant Inv(S()) && S() == s0.(vm := vm)
        invariant forall l: Loc :: l.dir == e && l.v >= v ==> EntryKept(s0.vm, vm, l)
        invariant forall l :: l in vm.maps && l.dir == c ==> l.v < v
        invariant p as nat !in vm.data
        invariant CopiedUpTo(s0.vm, Abs(s0), Abs(S()), e, c, v, luck)
        invariant !Fails(s0.vm, e, v, luck)
      {
        ghost var s1 := S();
        assert EntryKept(s0.vm, vm, Loc(e, v));
        if Loc(e, v) in vm.maps && Has(vm.maps[Loc(e, v)], PTE_U) {
          MayDup(s0, s1, e, c, v);
          assert Twice(s1.vm, e, v) == Twice(s0.vm, e, v);
          panicked := Duppage(e, c, v, luck.first(v), luck.second(v));
          if panicked { return; }
          if luck.first(v) {
            OneMore(s0.vm, s1, Abs(s0), Abs(S()), e, c, v, luck);
          } else {
            NoneMore(s0.vm, Abs(s0), Abs(S()), e, c, v, luck);
          }
          ElsewhereMaps(s1.vm, vm, e, c, v);
        } else {
          NoneMore(s0.vm, Abs(s0), Abs(S()), e, c, v, luck);
        }
      }
      panicked := false;
    }

    /** fork, up to its return in the parent.  `c` is the child that sys_exofork finds, `p` the
        page for its exception stack.  The child reads what the parent read, in all pages for which
        there was memory; the parent reads what it read before; and the child has an empty exception
        stack of its own. */
    method Fork(e: nat, c: nat, p: Uint20, luck: Luck, upcall: Uint32) returns (panicked: bool)
      requires Inv(S()) && Allowed(S(), Exofork(e, c)) && !Dupping(S(), e) && p as nat !in vm.data
      modifies this
      ensures panicked <==> Fails(old(vm), e, USTACKTOP_V, luck) || !luck.stack
      ensures !panicked ==> Inv(S()) && S() == State(vm, old(live) + {c}, old(kids), old(pend), old(faults))
      ensures !panicked ==> Forked(old(vm), old(Abs(S())), Abs(S()), e, c, p, luck)
      ensures !panicked ==> upcalls == old(upcalls)[c := upcall]
      ensures !panicked ==> forall esp: Uint32 :: !F.InPage(esp) ==> FaultFits(vm, c, esp)
    {
      hide Inv, Abs, Has, Dupping, CopiedUpTo, Forked, Fails;
      ghost var s0 := S();
      ExoforkKeeps(s0, e, c);
      kids := kids[c := e];
      SameDupping(s0, S(), e);
      panicked := DupAll(e, c, p, luck);
      if panicked { return; }
      ghost var s2 := S();
      SameDupping(s0, s2, e);
      LastSteps(s2, e, c, p);
      var r := SysPageAlloc(Loc(c, UXSTACK_V), OWNED, p, luck.stack);
      if r < 0 { return true; }
      upcalls := upcalls[c := upcall];
      live, kids := live + {c}, kids - {c};
      assert kids == s0.kids;
      AllCopied(s0.vm, Abs(s0), Abs(s2), e, c, p, luck);
      forall esp: Uint32 | !F.InPage(esp) ensures FaultFits(vm, c, esp) {
        StackFits(s2, c, p, esp);
      }
      panicked := false;
    }
  }

  /** The pages that an environment may write. */
  function Writable(f: Flat, e: nat): set<int> {
    set l | l in f.maps && l.dir == e && Has(f.maps[l], PTE_W | PTE_U) :: l.v
  }

  ghost predicate Alone(f: Flat, at: Loc) {
    at in f.maps && forall l :: l in f.maps && f.maps[l].ppn == f.maps[at].ppn ==> l == at
  }

  /** A page fault of environment `e` with the stack pointer `esp` finds room for its frame, on pages
      that no one else has. */
  ghost predicate FaultFits(f: Flat, e: nat, esp: Uint32) {
    && F.CanWrite(Writable(f, e), F.FrameBase(esp), F.SIZE)
    && forall a: nat :: F.FrameBase(esp) <= a < F.FrameBase(esp) + F.SIZE ==> Alone(f, Loc(e, a / PGSIZE))
  }

  /** The first fault of a child whose exception stack has been allocated. */
  lemma StackFits(s: State, c: nat, p: Uint20, esp: Uint32)
    requires Inv(s) && p as nat !in s.vm.data && !F.InPage(esp)
    ensures FaultFits(Fresh(s.vm, Loc(c, UXSTACK_V), p, OWNED), c, esp)
  {
    hide Has, Fresh, Good, Contents, Single, SharedOk, PendOk, FaultsOk;
    InvGood(s);
    var at, f := Loc(c, UXSTACK_V), Fresh(s.vm, Loc(c, UXSTACK_V), p, OWNED);
    FreshFacts(s.vm, at, p, OWNED);
    MayWrite(p);
    assert at in f.maps && UXSTACK_V in Writable(f, c);
    forall a | F.FrameBase(esp) <= a < F.FrameBase(esp) + F.SIZE ensures a / PGSIZE == UXSTACK_V {}
  }

  lemma MayWrite(p: Uint20)
    ensures Has(Word(p, OWNED | PTE_P), PTE_W | PTE_U)
  {
  }

  predicate EntryKept(f: Flat, g: Flat, l: Loc) {
    (l in g.maps <==> l in f.maps) && (l in g.maps ==> g.maps[l] == f.maps[l])
  }

  /** What fork does: the child's copies, and its exception stack. */
  ghost predicate Forked(f: Flat, g: Eager, g': Eager, e: nat, c: nat, p: nat, luck: Luck) {
    exists h :: CopiedUpTo(f, g, h, e, c, USTACKTOP_V, luck)
                && g' == h[Loc(c, UXSTACK_V) := CellFor(Owned, p, ZeroFrame())]
  }

  /** A fork that has returned has given the child all of the parent's pages exactly when each of them
      found memory: for shared and read-only pages nothing tells the parent otherwise. */
  lemma ChildCompleteIff(f: Flat, g: Eager, g': Eager, e: nat, c: nat, p: nat, luck: Luck)
    requires Forked(f, g, g', e, c, p, luck) && forall l :: l in g ==> l.dir != c
    ensures (forall v: nat :: Copyable(f, e, v) ==> Loc(c, v) in g') <==>
            (forall v: nat :: Copyable(f, e, v) ==> luck.first(v))
  {
    hide Has;
    forall v: nat | Copyable(f, e, v)
      ensures Loc(c, v) in g' <==> luck.first(v)
    {
      assert ToCopy(f, e, c, USTACKTOP_V, luck, Loc(c, v)) <==> luck.first(v);
    }
  }

  /** A parent with one shared page, and no memory for the child's page table: fork returns, and the
      child lacks the page. */
  lemma SharedMissing(g: Eager, g': Eager, p: nat, luck: Luck)
    requires luck == Luck(_ => false, _ => false, true) && forall l :: l in g ==> l.dir != 2
    requires Forked(Flat(map[Loc(1, 0x800) := Word(9, PTE_SYSCALL)], map[9 := ZeroFrame()]), g, g', 1, 2, p, luck)
    ensures var f := Flat(map[Loc(1, 0x800) := Word(9, PTE_SYSCALL)], map[9 := ZeroFrame()]);
            Copyable(f, 1, 0x800) && !Fails(f, 1, USTACKTOP_V, luck) && Loc(2, 0x800) !in g'
  {
    hide CopiedUpTo;
    var f := Flat(map[Loc(1, 0x800) := Word(9, PTE_SYSCALL)], map[9 := ZeroFrame()]);
    Kinds(9);
    assert Has(Word(9, PTE_SYSCALL), PTE_U);
    var h :| CopiedUpTo(f, g, h, 1, 2, USTACKTOP_V, luck)
             && g' == h[Loc(2, UXSTACK_V) := CellFor(Owned, p, ZeroFrame())];
    NotCopied(f, g, h, luck);
  }

  lemma NotCopied(f: Flat, g: Eager, h: Eager, luck: Luck)
    requires CopiedUpTo(f, g, h, 1, 2, USTACKTOP_V, luck) && !luck.first(0x800) && Loc(2, 0x800) !in g
    ensures Loc(2, 0x800) !in h
  {
  }

  lemma AllCopied(f: Flat, g: Eager, h: Eager, e: nat, c: nat, p: nat, luck: Luck)
    requires CopiedUpTo(f, g, h, e, c, USTACKTOP_V, luck)
    ensures Forked(f, g, h[Loc(c, UXSTACK_V) := CellFor(Owned, p, ZeroFrame())], e, c, p, luck)
  {
    hide CopiedUpTo;
  }

  lemma NothingCopied(f: Flat, g: Eager, e: nat, c: nat, luck: Luck)
    ensures CopiedUpTo(f, g, g, e, c, 0, luck)
  {
  }

  lemma NoneMore(f: Flat, g: Eager, g': Eager, e: nat, c: nat, v: nat, luck: Luck)
    requires CopiedUpTo(f, g, g', e, c, v, luck) && !ToCopy(f, e, c, v + 1, luck, Loc(c, v))
    ensures CopiedUpTo(f, g, g', e, c, v + 1, luck)
  {
    hide Has;
    forall l
      ensures ToCopy(f, e, c, v + 1, luck, l) <==> ToCopy(f, e, c, v, luck, l)
    {
      assert l.dir == c && l.v == v ==> l == Loc(c, v);
    }
  }

  lemma OneMore(f: Flat, s1: State, g: Eager, g': Eager, e: nat, c: nat, v: nat, luck: Luck)
    requires CopiedUpTo(f, g, Abs(s1), e, c, v, luck) && Inv(s1) && Allowed(s1, DupFirst(e, c, v))
    requires ToCopy(f, e, c, v + 1, luck, Loc(c, v))
    requires g' == Copy(Abs(s1), Loc(e, v), Loc(c, v))
    ensures CopiedUpTo(f, g, g', e, c, v + 1, luck)
  {
    hide Has, Inv, CellOf;
    LiveNotPending(s1, Loc(e, v));
    assert Loc(e, v) in Abs(s1);
    assert e != c by { Separate(s1, e, c); }
    forall l
      ensures ToCopy(f, e, c, v + 1, luck, l) <==> ToCopy(f, e, c, v, luck, l) || l == Loc(c, v)
    {
      assert l.dir == c && l.v == v ==> l == Loc(c, v);
    }
  }

  lemma Separate(s: State, e: nat, c: nat)
    requires Inv(s) && e in s.live && c in s.kids
    ensures e != c
  {
  }

  /** fork's loop may duplicate the page it has come to. */
  lemma MayDup(s0: State, s: State, e: nat, c: nat, v: nat)
    requires Inv(s) && e in s.live && e !in s.faults && c in s.kids && s.kids[c] == e
    requires !Dupping(s0, e) && s.pend == s0.pend && v < USTACKTOP_V
    requires Loc(e, v) in s.vm.maps && Has(s.vm.maps[Loc(e, v)], PTE_U) && Loc(c, v) !in s.vm.maps
    ensures Allowed(s, DupFirst(e, c, v))
  {
    hide Inv, Has;
    NotScratch(s, Loc(e, v));
    SameDupping(s0, s, e);
  }

  lemma NotScratch(s: State, l: Loc)
    requires Inv(s) && l in s.vm.maps && l.dir !in s.faults
    ensures l.v != PFTEMP_V
  {
  }

  lemma SameDupping(s: State, t: State, e: nat)
    requires t.pend == s.pend && !Dupping(s, e)
    ensures !Dupping(t, e)
  {
  }

  lemma ElsewhereMaps(f: Flat, g: Flat, e: nat, c: nat, v: nat)
    requires Elsewhere(f, g, e, c, v)
    ensures g.data.Keys <= f.data.Keys
    ensures forall l :: l != Loc(e, v) && l != Loc(c, v) ==>
              (l in g.maps <==> l in f.maps) && (l in f.maps ==> g.maps[l] == f.maps[l])
  {
  }

  /** The exception stack, and the child made runnable. */
  lemma LastSteps(s: State, e: nat, c: nat, p: Uint20)
    requires Inv(s) && e in s.live && e !in s.faults && !Dupping(s, e) && c in s.kids && s.kids[c] == e
    requires p as nat !in s.vm.data
    ensures PermOk(OWNED)
    ensures var t := s.(vm := Fresh(s.vm, Loc(c, UXSTACK_V), p, OWNED));
            var u := t.(live := s.live + {c}, kids := s.kids - {c});
            Inv(u) && Abs(u) == Abs(s)[Loc(c, UXSTACK_V) := CellFor(Owned, p, ZeroFrame())]
  {
    hide Inv, Abs, Fresh, Dupping;
    OwnedPerm(p);
    var a := Alloc(e, c, UXSTACK_V, p, OWNED);
    StepKeeps(s, a);
    StepIsEager(s, a);
    var t := Next(s, a);
    SameDupping(s, t, e);
    StartKeeps(t, e, c);
  }

  lemma OwnedPerm(p: Uint20)
    ensures PermOk(OWNED) && KindOf(Word(p, OWNED)) == Owned && KindOf(Word(p, OWNED | PTE_P)) == Owned
  {
  }

  /** Only the page `v` of parent and child is touched, the parent keeps it, and no page comes into use. */
  ghost predicate Elsewhere(f: Flat, g: Flat, e: nat, c: nat, v: nat) {
    && g.data.Keys <= f.data.Keys
    && forall l :: l != Loc(e, v) && l != Loc(c, v) ==>
         (l in g.maps <==> l in f.maps) && (l in f.maps ==> g.maps[l] == f.maps[l])
  }

  /** The calls that duppage makes first are accepted, and do what the first mapping is to do. */
  lemma DupCalls(s: State, e: nat, c: nat, v: nat)
    requires Inv(s) && Allowed(s, DupFirst(e, c, v))
    ensures var w := s.vm.maps[Loc(e, v)]; var perm := ChildPerm(KindOf(w));
      && MapOk(s.vm, Loc(e, v), perm) && perm | PTE_P == perm
      && KindOf(w) == (if Has(w, PTE_SHARE) then Shared
                       else if Has(w, PTE_W) then Owned
                       else if Has(w, PTE_COW) then Lazy
                       else Fixed)
    ensures Loc(c, v) !in s.pend
    ensures var t := Next(s, DupFirst(e, c, v));
      && Inv(t) && Elsewhere(s.vm, t.vm, e, c, v) && Elsewhere(s.vm, s.vm, e, c, v) && Loc(c, v) in t.vm.maps
      && (t.pend == s.pend ==> Abs(t) == Copy(Abs(s), Loc(e, v), Loc(c, v)))
  {
    hide Inv, Abs, Enter, Good, PendOk, FaultsOk, Single, SharedOk, SameContents;
    var w := s.vm.maps[Loc(e, v)];
    if KindOf(w) == Shared { SharedIsWritable(s, Loc(e, v)); }
    HasWrite(w);
    EnterKeys(s.vm, Loc(c, v), Word(w.ppn, ChildPerm(KindOf(w))));
    var w1, n := DupFirstMaps(s, e, c, v);
    DupFirstKeeps(s, e, c, v);
    DupFirstEager(s, e, c, v);
  }

  /** duppage's second call, on the parent's own entry. */
  lemma DupCallsSecond(s: State, e: nat, c: nat, v: nat)
    requires Inv(s) && Allowed(s, DupFirst(e, c, v)) && (Kd(s, Loc(e, v)) == Owned || Kd(s, Loc(e, v)) == Lazy)
    ensures var t := Next(s, DupFirst(e, c, v));
      && MapOk(t.vm, Loc(e, v), LAZY) && Allowed(t, DupSecond(e, c, v))
      && var u := Next(t, DupSecond(e, c, v));
         Inv(u) && u.pend == s.pend && Abs(u) == Copy(Abs(s), Loc(e, v), Loc(c, v)) && Elsewhere(s.vm, u.vm, e, c, v)
         && Loc(c, v) in u.vm.maps
  {
    hide Inv, Abs, Enter, Good, SameContents, KindOf, Has;
    var t := Next(s, DupFirst(e, c, v));
    var w, n := DupFirstMaps(s, e, c, v);
    DupCalls(s, e, c, v);
    DupFirstEager(s, e, c, v);
    DuppingIs(s, t, e, c, v);
    NoPermAsked();
    var w2, n2 := DupSecondMaps(t, e, c, v);
    DupSecondKeeps(t, e, c, v);
    DupSecondEager(t, e, c, v);
    var u := Next(t, DupSecond(e, c, v));
    assert u.pend == s.pend;
    assert u.vm.data.Keys <= t.vm.data.Keys by { EnterKeys(t.vm, Loc(e, v), Word(t.vm.maps[Loc(e, v)].ppn, LAZY)); }
  }

  lemma EnterKeys(f: Flat, at: Loc, w: Word)
    ensures Enter(f, at, w).data.Keys <= f.data.Keys
  {
  }

  lemma NoPermAsked()
    ensures PermOk(LAZY) && LAZY & PTE_W == 0
  {
  }

  lemma DuppingIs(s: State, t: State, e: nat, c: nat, v: nat)
    requires !Dupping(s, e) && Loc(c, v) !in s.pend && (t.pend == s.pend || t.pend == s.pend[Loc(c, v) := e])
    ensures Dupping(t, e) <==> Loc(c, v) in t.pend
    ensures Loc(c, v) in t.pend ==> t.pend[Loc(c, v)] == e
  {
    assert Loc(c, v) in t.pend ==> Dupping(t, e);
    assert forall m :: m in t.pend && m != Loc(c, v) ==> m in s.pend && t.pend[m] == s.pend[m];
  }

  lemma SharedIsWritable(s: State, l: Loc)
    requires Inv(s) && l in s.vm.maps && Kd(s, l) == Shared
    ensures Has(s.vm.maps[l], PTE_W)
  {
  }

  lemma LazyWhenFaulting(s: State, l: Loc)
    requires Inv(s) && l in s.vm.maps && Has(s.vm.maps[l], PTE_COW) && !Has(s.vm.maps[l], PTE_W)
    ensures Kd(s, l) == Lazy && MapOk(s.vm, l, FIXED) && FIXED | PTE_P == FIXED && PermOk(OWNED)
  {
  }

  /** A step of pgfault changes nothing that can be read. */
  lemma FaultStep(s: State, a: Step)
    requires Inv(s) && Allowed(s, a) && (a.FaultKeep? || a.FaultRenew? || a.FaultCopy? || a.FaultDrop?)
    ensures Inv(Next(s, a)) && Abs(Next(s, a)) == Abs(s)
  {
    hide Inv, Abs, Allowed, Next;
    StepKeeps(s, a);
    StepIsEager(s, a);
  }

  /** The last two steps of pgfault. */
  lemma ServeEnd(s2: State, e: nat, v: nat)
    requires Inv(s2) && e in s2.faults && s2.faults[e] == Fault(v, Renewed)
    ensures var s3 := s2.(vm := Overwrite(s2.vm, Loc(e, v), Scratch(e)), faults := s2.faults[e := Fault(v, Copied)]);
            var s4 := s3.(vm := Remove(s3.vm, Scratch(e)), faults := s3.faults - {e});
            Inv(s4) && Abs(s4) == Abs(s2) && s4.vm.maps == s2.vm.maps - {Scratch(e)}
  {
    hide Inv, Abs, KindOf, Contents, SameContents, Good, Remove;
    FaultStep(s2, FaultCopy(e));
    var s3 := Next(s2, FaultCopy(e));
    FaultStep(s3, FaultDrop(e));
    InvGood(s3);
    RemoveFacts(s3.vm, Scratch(e));
  }

  /** The rest of pgfault after its first call. */
  lemma Serve(s0: State, s1: State, e: nat, v: nat, p: Uint20)
    requires Inv(s0) && Allowed(s0, FaultKeep(e, v)) && p as nat !in s0.vm.data && s1 == Next(s0, FaultKeep(e, v))
    ensures var s2 := s1.(vm := Fresh(s1.vm, Loc(e, v), p, OWNED), faults := s1.faults[e := Fault(v, Renewed)]);
            var s3 := s2.(vm := Overwrite(s2.vm, Loc(e, v), Scratch(e)), faults := s2.faults[e := Fault(v, Copied)]);
            var s4 := s3.(vm := Remove(s3.vm, Scratch(e)), faults := s3.faults - {e});
            Inv(s4) && Abs(s4) == Abs(s0) && s4.vm.maps == s0.vm.maps[Loc(e, v) := Word(p, OWNED)]
  {
    hide Inv, Abs, KindOf, Contents, SameContents, Good, Remove, Overwrite, Fresh;
    FaultStep(s0, FaultKeep(e, v));
    var n := FaultKeepMaps(s0, e, v);
    FaultStep(s1, FaultRenew(e, p));
    var at, w := FaultRenewMaps(s1, e, p);
    InvGood(s1);
    FreshFacts(s1.vm, at, p, OWNED);
    Kinds(p);
    var s2 := Next(s1, FaultRenew(e, p));
    ServeEnd(s2, e, v);
  }

  // ---- dumbfork ----

  const UTEMP_V := 0x400

  /** user/dumbfork.c: duppage, a new page filled through UTEMP. */
  function DumbDup(f: Flat, e: nat, c: nat, v: nat, p: Uint20): Flat {
    var f1 := Fresh(f, Loc(c, v), p, OWNED);
    var f2 := Enter(f1, Loc(e, UTEMP_V), Word(p, OWNED));
    var f3 := Overwrite(f2, Loc(e, UTEMP_V), Loc(e, v));
    Remove(f3, Loc(e, UTEMP_V))
  }

  lemma DumbDupFlat(f: Flat, e: nat, c: nat, v: nat, p: Uint20)
    requires Good(f) && Loc(e, v) in f.maps && Loc(c, v) !in f.maps && Loc(e, UTEMP_V) !in f.maps
    requires v != UTEMP_V && c != e
    requires p as nat !in f.data
    ensures var g := DumbDup(f, e, c, v, p);
      && g.maps == f.maps[Loc(c, v) := Word(p, OWNED)] && Good(g)
      && Contents(g, p) == Contents(f, f.maps[Loc(e, v)].ppn)
      && forall l :: l in f.maps ==> Contents(g, f.maps[l].ppn) == Contents(f, f.maps[l].ppn)
  {
    hide Fresh, Enter, Remove, Mapped;
    Kinds(p);
    var f1 := Fresh(f, Loc(c, v), p, OWNED);
    FreshFacts(f, Loc(c, v), p, OWNED);
    GoodHas(f1, Loc(c, v));
    var f2 := Enter(f1, Loc(e, UTEMP_V), Word(p, OWNED));
    EnterFacts(f1, Loc(e, UTEMP_V), Word(p, OWNED));
    GoodHas(f2, Loc(e, UTEMP_V));
    var f3 := Overwrite(f2, Loc(e, UTEMP_V), Loc(e, v));
    assert f3.data.Keys == f2.data.Keys;
    RemoveFacts(f3, Loc(e, UTEMP_V));
    var g := Remove(f3, Loc(e, UTEMP_V));
    assert g.maps == f.maps[Loc(c, v) := Word(p, OWNED)];
    assert Loc(c, v) in g.maps;
    forall l | l in f.maps
      ensures Contents(g, f.maps[l].ppn) == Contents(f, f.maps[l].ppn)
    {
      assert l in g.maps && l in f2.maps && l in f1.maps;
    }
  }

  /** The eager machine's copy of a private page is what dumbfork's duppage does. */
  lemma DumbDupIsCopy(s: State, e: nat, c: nat, v: nat, p: Uint20)
    requires Inv(s) && Allowed(s, DupFirst(e, c, v)) && (Kd(s, Loc(e, v)) == Owned || Kd(s, Loc(e, v)) == Lazy)
    requires Loc(e, UTEMP_V) !in s.vm.maps && p as nat !in s.vm.data
    ensures Abs(s.(vm := DumbDup(s.vm, e, c, v, p))) == Copy(Abs(s), Loc(e, v), Loc(c, v))
  {
    hide KindOf, Has, DumbDup, Good, Contents, Inv, Enter;
    InvGood(s);
    Separate(s, e, c);
    LiveNotPending(s, Loc(e, v));
    var w, n := DupFirstMaps(s, e, c, v);
    DumbDupFlat(s.vm, e, c, v, p);
    Kinds(p);
    var t := s.(vm := DumbDup(s.vm, e, c, v, p));
    forall l | l in t.vm.maps && !Hidden(t, l)
      ensures CellOf(t, l) == CellOf(s, if l == Loc(c, v) then Loc(e, v) else l)
    {
      assert l != Loc(c, v) ==> Source(t, l) == Source(s, l);
    }
  }
}
