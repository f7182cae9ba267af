/** Address spaces as user programs see them: a map from (directory, page number) to page table
    entry, and the contents of the pages that it maps.  The page system calls of kern/syscall.c
    are operations on it. */
module FlatVm {
  import opened Paging

  /** A page of an address space, named by its page directory and its page number. */
  datatype Loc = Loc(dir: nat, v: nat)

  datatype Flat = Flat(maps: map<Loc, Word>, data: map<nat, Frame>)

  function Mapped(maps: map<Loc, Word>): set<nat> {
    set l | l in maps :: maps[l].ppn as nat
  }

  /** Pages that nothing maps any more are gone. */
  function Settle(maps: map<Loc, Word>, pool: map<nat, Frame>): Flat {
    Flat(maps, map p | p in pool && p in Mapped(maps) :: pool[p])
  }

  /** Every mapped page has contents, and only mapped pages have. */
  ghost predicate Good(f: Flat) {
    f.data.Keys == Mapped(f.maps) && forall l :: l in f.maps ==> Present(f.maps[l])
  }

  function Enter(f: Flat, at: Loc, w: Word): Flat {
    Settle(f.maps[at := w], f.data)
  }

  function Fresh(f: Flat, at: Loc, p: Uint20, perm: Flags): Flat {
    Settle(f.maps[at := Word(p, perm | PTE_P)], f.data[p as nat := ZeroFrame()])
  }

  function Remove(f: Flat, at: Loc): Flat {
    Settle(f.maps - {at}, f.data)
  }

  /** The address space of `dir` goes. */
  function RemoveAll(f: Flat, dir: nat): Flat {
    Settle(map l | l in f.maps && l.dir != dir :: f.maps[l], f.data)
  }

  function StoreWord(f: Flat, p: nat, k: nat, x: Word): Flat
    requires p in f.data && k < NENTRIES
  {
    f.(data := f.data[p := f.data[p][k := x]])
  }

  /** What page `p` holds. */
  function Contents(f: Flat, p: nat): Frame {
    if p in f.data then f.data[p] else ZeroFrame()
  }

  lemma MappedHas(maps: map<Loc, Word>, l: Loc)
    requires l in maps
    ensures maps[l].ppn as nat in Mapped(maps)
  {
  }

  lemma MappedBy(maps: map<Loc, Word>, p: nat) returns (l: Loc)
    requires p in Mapped(maps)
    ensures l in maps && maps[l].ppn == p
  {
    l :| l in maps && maps[l].ppn == p;
  }

  /** What is still mapped keeps its contents. */
  lemma Settled(maps: map<Loc, Word>, pool: map<nat, Frame>)
    requires forall l :: l in maps ==> Present(maps[l]) && maps[l].ppn as nat in pool
    ensures Good(Settle(maps, pool))
    ensures forall l :: l in maps ==> Contents(Settle(maps, pool), maps[l].ppn) == pool[maps[l].ppn as nat]
  {
    var f := Settle(maps, pool);
    forall p | p in Mapped(maps)
      ensures p in f.data
    {
      var l := MappedBy(maps, p);
    }
    forall l | l in maps
      ensures maps[l].ppn as nat in f.data
    {
      MappedHas(maps, l);
    }
  }

  lemma GoodHas(f: Flat, l: Loc)
    requires Good(f) && l in f.maps
    ensures Present(f.maps[l]) && f.maps[l].ppn as nat in f.data
  {
    MappedHas(f.maps, l);
  }

  // ---- The page system calls, once their arguments name environments ----

  datatype Call =
    | PageAlloc(at: Loc, p: Uint20, perm: Flags)        // p was on the free list
    | PageMap(from: Loc, at: Loc, perm: Flags)
    | PageUnmap(at: Loc)
    | PageSend(from: Loc, at: Loc, perm: Flags)         // sys_ipc_try_send with a page wanted
    | EnvFree(dir: nat)
    | UserStore(loc: Loc, k: nat, x: Word)

  predicate PermOk(perm: Flags) {
    perm & (PTE_U | PTE_P) == PTE_U | PTE_P
  }

  predicate MapOk(f: Flat, from: Loc, perm: Flags) {
    from in f.maps && PermOk(perm) && (f.maps[from].flags & PTE_W == 0 ==> perm & PTE_W == 0)
  }

  predicate SendOk(f: Flat, from: Loc, perm: Flags) {
    from in f.maps && f.maps[from].flags & perm & 7 == perm & 7
      && (perm & PTE_W != 0 ==> f.maps[from].flags & PTE_W != 0)
  }

  /** A call with bad arguments changes nothing. */
  function Do(f: Flat, c: Call): Flat {
    match c
    case PageAlloc(at, p, perm) => if PermOk(perm) then Fresh(f, at, p, perm) else f
    case PageMap(from, at, perm) =>
      if MapOk(f, from, perm) then Enter(f, at, Word(f.maps[from].ppn, perm | PTE_P)) else f
    case PageUnmap(at) => Remove(f, at)
    case PageSend(from, at, perm) =>
      if SendOk(f, from, perm) then Enter(f, at, Word(f.maps[from].ppn, perm | PTE_P)) else f
    case EnvFree(dir) => RemoveAll(f, dir)
    case UserStore(loc, k, x) =>
      if loc in f.maps && Has(f.maps[loc], PTE_W | PTE_U) && f.maps[loc].ppn as nat in f.data && k < NENTRIES
      then StoreWord(f, f.maps[loc].ppn, k, x) else f
  }

  /** sys_page_alloc is given a page that is not in use. */
  predicate Possible(f: Flat, c: Call) {
    c.PageAlloc? ==> c.p as nat !in f.data
  }

  lemma DoKeepsGood(f: Flat, c: Call)
    requires Good(f) && Possible(f, c)
    ensures Good(Do(f, c))
  {
    forall l | l in f.maps
      ensures f.maps[l].ppn as nat in f.data
    {
      GoodHas(f, l);
    }
    match c
    case PageAlloc(at, p, perm) =>
      StillPresent(p, perm);
      Settled(f.maps[at := Word(p, perm | PTE_P)], f.data[p as nat := ZeroFrame()]);
    case PageMap(from, at, perm) =>
      if MapOk(f, from, perm) {
        StillPresent(f.maps[from].ppn, perm);
        Settled(f.maps[at := Word(f.maps[from].ppn, perm | PTE_P)], f.data);
      }
    case PageUnmap(at) => Settled(f.maps - {at}, f.data);
    case PageSend(from, at, perm) =>
      if SendOk(f, from, perm) {
        StillPresent(f.maps[from].ppn, perm);
        Settled(f.maps[at := Word(f.maps[from].ppn, perm | PTE_P)], f.data);
      }
    case EnvFree(dir) => Settled(map l | l in f.maps && l.dir != dir :: f.maps[l], f.data);
    case UserStore(loc, k, x) =>
      assert Do(f, c).data.Keys == f.data.Keys;
  }

  lemma StillPresent(p: Uint20, perm: Flags)
    ensures Present(Word(p, perm | PTE_P))
    ensures Has(Word(p, perm | PTE_P), PTE_W) <==> perm & PTE_W != 0
  {
    assert (perm | PTE_P) & PTE_P == PTE_P;
    assert (perm | PTE_P) & PTE_W == perm & PTE_W;
    assert perm & PTE_W != 0 <==> perm & PTE_W == PTE_W;
  }

  // ---- What a program sees of each call ----

  /** What a program reads at `l`: nothing, or a page, its permissions and its contents. */
  datatype Sight = Unmapped | Sees(ppn: nat, flags: Flags, holds: Frame)

  function Seen(f: Flat, l: Loc): Sight {
    if l in f.maps then Sees(f.maps[l].ppn, f.maps[l].flags, Contents(f, f.maps[l].ppn)) else Unmapped
  }

  /** Nothing changes anywhere but at `at`. */
  ghost predicate OnlyAt(f: Flat, g: Flat, at: Loc) {
    forall l :: l != at ==> Seen(g, l) == Seen(f, l)
  }

  /** Asked for with both of PTE_U and PTE_P. */
  predicate UserPage(perm: Flags) {
    perm & PTE_U != 0 && perm & PTE_P != 0
  }

  predicate MayWrite(perm: Flags) {
    perm & PTE_W != 0
  }

  /** A new page is all zeroes and nobody else's, with the permissions asked for. */
  lemma AllocSeen(f: Flat, at: Loc, p: Uint20, perm: Flags)
    requires Good(f) && p as nat !in f.data
    ensures var g := Do(f, PageAlloc(at, p, perm));
            if UserPage(perm)
            then OnlyAt(f, g, at) && Seen(g, at) == Sees(p, perm, ZeroFrame())
                 && forall l :: l != at && l in g.maps ==> g.maps[l].ppn != p
            else g == f
  {
    PermBits(perm);
    FreshSeen(f, at, p, perm);
  }

  lemma FreshSeen(f: Flat, at: Loc, p: Uint20, perm: Flags)
    requires Good(f) && p as nat !in f.data
    ensures var g := Fresh(f, at, p, perm);
            && OnlyAt(f, g, at) && Seen(g, at) == Sees(p, perm | PTE_P, ZeroFrame())
            && forall l :: l != at && l in g.maps ==> g.maps[l].ppn != p
  {
    StillPresent(p, perm);
    var maps, pool := f.maps[at := Word(p, perm | PTE_P)], f.data[p as nat := ZeroFrame()];
    forall l | l in maps
      ensures Present(maps[l]) && maps[l].ppn as nat in pool
      ensures l != at ==> maps[l].ppn as nat in f.data && maps[l].ppn != p
    {
      if l != at { GoodHas(f, l); }
    }
    Settled(maps, pool);
    assert at in maps;
  }

  lemma EnterSeen(f: Flat, at: Loc, from: Loc, perm: Flags)
    requires Good(f) && from in f.maps
    ensures var g := Enter(f, at, Word(f.maps[from].ppn, perm | PTE_P));
            OnlyAt(f, g, at) && Seen(g, at) == Seen(f, from).(flags := perm | PTE_P)
  {
    var w := Word(f.maps[from].ppn, perm | PTE_P);
    StillPresent(w.ppn, perm);
    var maps := f.maps[at := w];
    forall l | l in maps
      ensures Present(maps[l]) && maps[l].ppn as nat in f.data
    {
      if l != at { GoodHas(f, l); } else { GoodHas(f, from); }
    }
    Settled(maps, f.data);
    assert at in maps;
  }

  lemma PermBits(perm: Flags)
    ensures PermOk(perm) <==> UserPage(perm)
    ensures UserPage(perm) ==> perm | PTE_P == perm
  {
  }

  /** Mapping shares the page: the same contents under the permissions asked for, which may include
      writing only if they did before. */
  lemma MapSeen(f: Flat, from: Loc, at: Loc, perm: Flags)
    requires Good(f)
    ensures var g := Do(f, PageMap(from, at, perm));
            if Seen(f, from).Sees? && UserPage(perm) && (MayWrite(perm) ==> MayWrite(Seen(f, from).flags))
            then OnlyAt(f, g, at) && Seen(g, at) == Seen(f, from).(flags := perm)
            else g == f
  {
    PermBits(perm);
    if from in f.maps { EnterSeen(f, at, from, perm); }
  }

  /** So does sending, with permissions that the sender has. */
  lemma SendSeen(f: Flat, from: Loc, at: Loc, perm: Flags)
    requires Good(f)
    ensures var g := Do(f, PageSend(from, at, perm));
            if Seen(f, from).Sees? && NoMore(perm, Seen(f, from).flags)
            then OnlyAt(f, g, at) && Seen(g, at) == Seen(f, from).(flags := perm | PTE_P)
            else g == f
  {
    hide NoMore, Good, Enter, SendOk, OnlyAt;
    SendBits(f, from, perm);
    if from in f.maps { EnterSeen(f, at, from, perm); }
  }

  /** Presence, writing and user access only where `flags` has them. */
  predicate NoMore(perm: Flags, flags: Flags) {
    && (perm & PTE_P != 0 ==> flags & PTE_P != 0)
    && (perm & PTE_W != 0 ==> flags & PTE_W != 0)
    && (perm & PTE_U != 0 ==> flags & PTE_U != 0)
  }

  lemma SendBits(f: Flat, from: Loc, perm: Flags)
    ensures SendOk(f, from, perm) <==> from in f.maps && NoMore(perm, f.maps[from].flags)
  {
    hide NoMore;
    if from in f.maps { LowBits(perm, f.maps[from].flags); }
  }

  lemma LowBits(perm: Flags, flags: Flags)
    ensures (flags & perm & 7 == perm & 7 && (perm & PTE_W != 0 ==> flags & PTE_W != 0)) <==> NoMore(perm, flags)
  {
    OneBit(perm, flags, PTE_P);
    OneBit(perm, flags, PTE_W);
    OneBit(perm, flags, PTE_U);
  }

  lemma OneBit(perm: Flags, flags: Flags, b: Flags)
    requires b == PTE_P || b == PTE_W || b == PTE_U
    ensures flags & perm & b == perm & b <==> (perm & b != 0 ==> flags & b != 0)
  {
  }

  /** Unmapping takes away that page of that address space; an exit, all of that address space. */
  lemma UnmapSeen(f: Flat, at: Loc, dir: nat)
    requires Good(f)
    ensures OnlyAt(f, Do(f, PageUnmap(at)), at) && Seen(Do(f, PageUnmap(at)), at) == Unmapped
    ensures var g := Do(f, EnvFree(dir)); forall l :: Seen(g, l) == if l.dir == dir then Unmapped else Seen(f, l)
  {
    hide Settle, Good;
    FewerSeen(f, f.maps - {at});
    FewerSeen(f, map l | l in f.maps && l.dir != dir :: f.maps[l]);
  }

  /** What stays mapped is seen as before. */
  lemma FewerSeen(f: Flat, maps: map<Loc, Word>)
    requires Good(f) && forall l :: l in maps ==> l in f.maps && maps[l] == f.maps[l]
    ensures var g := Settle(maps, f.data); g.maps == maps && forall l :: l in maps ==> Seen(g, l) == Seen(f, l)
  {
    forall l | l in maps
      ensures Present(maps[l]) && maps[l].ppn as nat in f.data
    {
      GoodHas(f, l);
    }
    Settled(maps, f.data);
  }

  /** A store through a mapping that allows it is seen by all who share the page, and by nobody else. */
  lemma StoreSeen(f: Flat, at: Loc, k: nat, x: Word)
    requires Good(f) && k < NENTRIES
    ensures var g := Do(f, UserStore(at, k, x));
            if Seen(f, at).Sees? && MayWrite(Seen(f, at).flags) && Seen(f, at).flags & PTE_U != 0
            then forall l :: Seen(g, l) == if Seen(f, l).Sees? && Seen(f, l).ppn == Seen(f, at).ppn
                                           then Seen(f, l).(holds := Seen(f, l).holds[k := x]) else Seen(f, l)
            else g == f
  {
    if at in f.maps {
      GoodHas(f, at);
      UserBits(f.maps[at].flags);
    }
    forall l | l in f.maps ensures f.maps[l].ppn as nat in f.data { GoodHas(f, l); }
  }

  lemma UserBits(flags: Flags)
    ensures flags & (PTE_W | PTE_U) == PTE_W | PTE_U <==> flags & PTE_W != 0 && flags & PTE_U != 0
  {
  }

  // ---- Write permission never appears from nothing ----

  ghost predicate Writable(f: Flat, p: nat) {
    exists l :: l in f.maps && f.maps[l].ppn == p && Has(f.maps[l], PTE_W)
  }

  lemma HasWrite(w: Word)
    ensures Has(w, PTE_W) <==> w.flags & PTE_W != 0
  {
    var flags := w.flags;
    assert flags & PTE_W != 0 <==> flags & PTE_W == PTE_W;
  }

  /** The entry that a mapping call makes is writable only if the one it comes from is. */
  lemma MappedFrom(f: Flat, from: Loc, perm: Flags)
    requires MapOk(f, from, perm) || SendOk(f, from, perm)
    ensures Has(Word(f.maps[from].ppn, perm | PTE_P), PTE_W) ==> Has(f.maps[from], PTE_W)
  {
    StillPresent(f.maps[from].ppn, perm);
    HasWrite(f.maps[from]);
  }

  /** A call that leaves page `p` in use gives no write permission on it that it had not. */
  lemma NoWriteGained(f: Flat, c: Call, p: nat)
    requires Good(f) && Possible(f, c) && p in f.data && !Writable(f, p)
    ensures !Writable(Do(f, c), p)
  {
    hide Has, PermOk, MapOk, SendOk, Mapped, Good;
    var g := Do(f, c);
    forall l | l in g.maps && g.maps[l].ppn == p
      ensures !Has(g.maps[l], PTE_W)
    {
      match c
      case PageMap(from, at, perm) => if MapOk(f, from, perm) { FromMapped(f, from, perm); MappedFrom(f, from, perm); }
      case PageSend(from, at, perm) =>
        if SendOk(f, from, perm) {
          FromMapped(f, from, perm);
          MappedFrom(f, from, perm);
        }
      case _ =>
    }
  }

  lemma FromMapped(f: Flat, from: Loc, perm: Flags)
    requires MapOk(f, from, perm) || SendOk(f, from, perm)
    ensures from in f.maps
  {
  }

  ghost predicate IsRun(fs: seq<Flat>, cs: seq<Call>) {
    && |fs| == |cs| + 1 && Good(fs[0])
    && forall i :: 0 <= i < |cs| ==> Possible(fs[i], cs[i]) && fs[i + 1] == Do(fs[i], cs[i])
  }

  lemma {:induction false} RunKeepsGood(fs: seq<Flat>, cs: seq<Call>, n: nat)
    requires IsRun(fs, cs) && n < |fs|
    ensures Good(fs[n])
  {
    hide Good, Do;
    if n > 0 {
      RunKeepsGood(fs, cs, n - 1);
      DoKeepsGood(fs[n - 1], cs[n - 1]);
    }
  }

  /** Over any run, a page that stays in use and has no writable mapping gains none: not before
      its last mapping goes and it is allocated again. */
  lemma {:induction false} WritePermissionNotFromNothing(fs: seq<Flat>, cs: seq<Call>, a: nat, b: nat, p: nat)
    requires IsRun(fs, cs) && a <= b < |fs| && !Writable(fs[a], p)
    requires forall i :: a <= i < b ==> p in fs[i].data
    ensures !Writable(fs[b], p)
  {
    hide Good, Do, Writable;
    if a < b {
      WritePermissionNotFromNothing(fs, cs, a, b - 1, p);
      RunKeepsGood(fs, cs, b - 1);
      NoWriteGained(fs[b - 1], cs[b - 1], p);
    }
  }
}
