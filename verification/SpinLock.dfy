/** kern/spinlock.c, instruction by instruction, on CPUs whose plain stores wait in a first-in
    first-out buffer before other CPUs see them.  xchg takes effect at once, and only when the
    buffer of its CPU is empty. */
module SpinLock {
  import opened Options

  /** Where a CPU is in the lock code. */
  datatype Pc =
    | Outside
    | HoldsLocked       // spin_lock: holding() reads lk->locked
    | HoldsCpu          // spin_lock: holding() reads lk->cpu
    | Spin              // the xchg loop
    | Record            // lk->cpu = thiscpu
    | Inside            // the critical section
    | CheckLocked       // spin_unlock: holding() reads lk->locked
    | CheckCpu          // spin_unlock: holding() reads lk->cpu
    | Clear             // lk->cpu = 0
    | Drop              // xchg(&lk->locked, 0)
    | Panicked

  /** `data` stands for whatever the lock protects. */
  datatype Mem = Mem(locked: bool, cpu: Option<nat>, data: int)

  datatype Store = ToCpu(cpu: Option<nat>) | ToData(data: int)

  datatype Core = Core(pc: Pc, buffer: seq<Store>)

  /** `latest` is what the critical sections stored last, in the order in which they ran. */
  datatype State = State(mem: Mem, cores: seq<Core>, latest: int)

  function Apply(mem: Mem, w: Store): Mem {
    match w
    case ToCpu(cpu) => mem.(cpu := cpu)
    case ToData(data) => mem.(data := data)
  }

  /** Memory as a CPU with this buffer reads it. */
  function View(mem: Mem, buffer: seq<Store>): Mem
    decreases |buffer|
  {
    if buffer == [] then mem else View(Apply(mem, buffer[0]), buffer[1..])
  }

  datatype Act =
    | Enter                // the kernel calls spin_lock
    | Write(data: int)     // a store in the critical section
    | Leave                // the kernel calls spin_unlock
    | Go                   // the next instruction of either
    | Drain                // the oldest buffered store reaches memory

  function At(s: State, c: nat, pc: Pc): State
    requires c < |s.cores|
  {
    s.(cores := s.cores[c := s.cores[c].(pc := pc)])
  }

  function Buffered(s: State, c: nat, w: Store): State
    requires c < |s.cores|
  {
    s.(cores := s.cores[c := s.cores[c].(buffer := s.cores[c].buffer + [w])])
  }

  /** The next instruction of spin_lock or spin_unlock; None while an xchg waits for the buffer. */
  ghost function Instruction(s: State, c: nat): Option<State>
    requires c < |s.cores|
  {
    var core := s.cores[c];
    var seen := View(s.mem, core.buffer);
    match core.pc
    case HoldsLocked => Some(At(s, c, if seen.locked then HoldsCpu else Spin))
    case HoldsCpu => Some(At(s, c, if seen.cpu == Some(c) then Panicked else Spin))
    case Spin =>
      if core.buffer != [] then None
      else if s.mem.locked then Some(s)
      else Some(At(s, c, Record).(mem := s.mem.(locked := true)))
    case Record => Some(At(Buffered(s, c, ToCpu(Some(c))), c, Inside))
    case CheckLocked => Some(At(s, c, if seen.locked then CheckCpu else Panicked))
    case CheckCpu => Some(At(s, c, if seen.cpu == Some(c) then Clear else Panicked))
    case Clear => Some(At(Buffered(s, c, ToCpu(None)), c, Drop))
    case Drop => if core.buffer != [] then None else Some(At(s, c, Outside).(mem := s.mem.(locked := false)))
    case _ => None
  }

  ghost function Step(s: State, c: nat, a: Act): Option<State>
    requires c < |s.cores|
  {
    var core := s.cores[c];
    match a
    case Enter => if core.pc == Outside then Some(At(s, c, HoldsLocked)) else None
    case Write(data) => if core.pc == Inside then Some(Buffered(s, c, ToData(data)).(latest := data)) else None
    case Leave => if core.pc == Inside then Some(At(s, c, CheckLocked)) else None
    case Go => Instruction(s, c)
    case Drain =>
      if core.buffer == [] then None
      else Some(s.(mem := Apply(s.mem, core.buffer[0]), cores := s.cores[c := core.(buffer := core.buffer[1..])]))
  }

  // ---- What every interleaving keeps ----

  /** From the xchg that takes the lock to the xchg that gives it back. */
  predicate Owns(pc: Pc) {
    pc == Record || pc == Inside || pc == CheckLocked || pc == CheckCpu || pc == Clear || pc == Drop
  }

  ghost predicate Owner(s: State, c: nat) {
    c < |s.cores| && Owns(s.cores[c].pc)
  }

  ghost predicate Unique(s: State) {
    forall c: nat, d: nat :: Owner(s, c) && Owner(s, d) ==> c == d
  }

  /** A store in the buffer of CPU `c` that writes lk->cpu writes that CPU or nothing. */
  ghost predicate OwnStores(c: nat, buffer: seq<Store>) {
    forall k :: 0 <= k < |buffer| && buffer[k].ToCpu? ==> buffer[k].cpu == None || buffer[k].cpu == Some(c)
  }

  /** What a CPU knows of the lock, by where it is. */
  ghost predicate CoreOk(s: State, c: nat)
    requires c < |s.cores|
  {
    var core := s.cores[c];
    && core.pc != Panicked
    && OwnStores(c, core.buffer)
    && (if Owns(core.pc) then
          var seen := View(s.mem, core.buffer);
          seen.data == s.latest && seen.cpu == if core.pc == Record || core.pc == Drop then None else Some(c)
        else core.buffer == [])
  }

  ghost predicate MemOk(s: State) {
    && (s.mem.locked <==> exists c: nat :: Owner(s, c))
    && (s.mem.cpu.Some? ==> Owner(s, s.mem.cpu.value))
    && (!s.mem.locked ==> s.mem.data == s.latest)
  }

  ghost predicate Inv(s: State) {
    Unique(s) && MemOk(s) && forall c :: 0 <= c < |s.cores| ==> CoreOk(s, c)
  }

  lemma {:induction false} ViewAppend(mem: Mem, buffer: seq<Store>, w: Store)
    ensures View(mem, buffer + [w]) == Apply(View(mem, buffer), w)
    decreases |buffer|
  {
    if buffer == [] {
      assert View(Apply(mem, w), [w][1..]) == Apply(mem, w);
    } else {
      assert (buffer + [w])[1..] == buffer[1..] + [w];
      ViewAppend(Apply(mem, buffer[0]), buffer[1..], w);
    }
  }

  lemma {:induction false} ViewLocked(mem: Mem, buffer: seq<Store>)
    ensures View(mem, buffer).locked == mem.locked
    decreases |buffer|
  {
    if buffer != [] {
      ViewLocked(Apply(mem, buffer[0]), buffer[1..]);
    }
  }

  lemma {:induction false} ViewWithLock(mem: Mem, buffer: seq<Store>, locked: bool)
    ensures View(mem.(locked := locked), buffer) == View(mem, buffer).(locked := locked)
    decreases |buffer|
  {
    if buffer != [] {
      ViewWithLock(Apply(mem, buffer[0]), buffer[1..], locked);
    }
  }

  /** A CPU moves without taking or giving back the lock, and stores nothing. */
  lemma Moves(s: State, c: nat, pc: Pc)
    requires Inv(s) && c < |s.cores| && Owns(pc) == Owns(s.cores[c].pc) && pc != Panicked
    requires Owns(pc) ==> pc != Record && pc != Drop && s.cores[c].pc != Record && s.cores[c].pc != Drop
    ensures Inv(At(s, c, pc))
  {
    hide View;
    var t := At(s, c, pc);
    assert forall d: nat :: Owner(t, d) <==> Owner(s, d);
    forall d | 0 <= d < |t.cores|
      ensures CoreOk(t, d)
    {
      assert CoreOk(s, d);
    }
  }

  /** The owner stores. */
  lemma Stores(s: State, c: nat, w: Store, pc: Pc)
    requires Inv(s) && Owner(s, c)
    requires match w
             case ToData(_) => pc == Inside && s.cores[c].pc == Inside
             case ToCpu(Some(d)) => d == c && pc == Inside && s.cores[c].pc == Record
             case ToCpu(None) => pc == Drop && s.cores[c].pc == Clear
    ensures Inv(At(Buffered(s, c, w), c, pc).(latest := if w.ToData? then w.data else s.latest))
  {
    hide View;
    var t := At(Buffered(s, c, w), c, pc).(latest := if w.ToData? then w.data else s.latest);
    assert forall d: nat :: Owner(t, d) <==> Owner(s, d);
    ViewAppend(s.mem, s.cores[c].buffer, w);
    forall d | 0 <= d < |t.cores|
      ensures CoreOk(t, d)
    {
      assert CoreOk(s, d);
      assert d != c ==> !Owner(s, d);
    }
  }

  lemma Acquires(s: State, c: nat)
    requires Inv(s) && c < |s.cores| && s.cores[c].pc == Spin && !s.mem.locked
    ensures Inv(At(s, c, Record).(mem := s.mem.(locked := true)))
  {
    var t := At(s, c, Record).(mem := s.mem.(locked := true));
    assert forall d: nat :: !Owner(s, d);
    assert forall d: nat :: d != c ==> (Owner(t, d) <==> Owner(s, d));
    assert Owner(t, c);
    forall d | 0 <= d < |t.cores|
      ensures CoreOk(t, d)
    {
      assert CoreOk(s, d) && !Owner(s, d);
    }
  }

  lemma Releases(s: State, c: nat)
    requires Inv(s) && c < |s.cores| && s.cores[c].pc == Drop && s.cores[c].buffer == []
    ensures Inv(At(s, c, Outside).(mem := s.mem.(locked := false)))
  {
    var t := At(s, c, Outside).(mem := s.mem.(locked := false));
    assert Owner(s, c) && CoreOk(s, c);
    assert forall d: nat :: d != c ==> !Owner(s, d);
    assert forall d: nat :: d != c ==> (Owner(t, d) <==> Owner(s, d));
    assert !Owner(t, c);
    forall d | 0 <= d < |t.cores|
      ensures CoreOk(t, d)
    {
      assert CoreOk(s, d) && (d != c ==> !Owner(s, d));
    }
  }

  lemma Drains(s: State, c: nat)
    requires Inv(s) && c < |s.cores| && s.cores[c].buffer != []
    ensures Inv(Step(s, c, Drain).value)
  {
    var t := Step(s, c, Drain).value;
    assert CoreOk(s, c);
    assert Owner(s, c);
    assert forall d: nat :: Owner(t, d) <==> Owner(s, d);
    forall d | 0 <= d < |t.cores|
      ensures CoreOk(t, d)
    {
      assert CoreOk(s, d);
      assert d != c ==> !Owner(s, d);
    }
    assert s.mem.locked;
  }

  /** Whatever step is taken, and in particular neither panic of the lock code is ever reached. */
  lemma StepKeeps(s: State, c: nat, a: Act)
    requires Inv(s) && c < |s.cores| && Step(s, c, a).Some?
    ensures Inv(Step(s, c, a).value)
  {
    hide View, Inv, Unique, MemOk;
    var core := s.cores[c];
    assert CoreOk(s, c) && (s.mem.cpu == Some(c) ==> Owns(core.pc)) && (Owns(core.pc) ==> s.mem.locked) by {
      Known(s, c);
    }
    match a
    case Enter => Moves(s, c, HoldsLocked);
    case Write(data) =>
      Stores(s, c, ToData(data), Inside);
      assert At(Buffered(s, c, ToData(data)), c, Inside) == Buffered(s, c, ToData(data));
    case Leave => Moves(s, c, CheckLocked);
    case Drain => Drains(s, c);
    case Go =>
      ViewLocked(s.mem, core.buffer);
      ViewEmpty(s.mem);
      match core.pc
      case HoldsLocked => Moves(s, c, if s.mem.locked then HoldsCpu else Spin);
      case HoldsCpu => Moves(s, c, Spin);
      case Spin => if !s.mem.locked { Acquires(s, c); }
      case Record => Stores(s, c, ToCpu(Some(c)), Inside);
      case CheckLocked => Moves(s, c, CheckCpu);
      case CheckCpu => Moves(s, c, Clear);
      case Clear => Stores(s, c, ToCpu(None), Drop);
      case Drop => Releases(s, c);
      case _ =>
  }

  lemma ViewEmpty(mem: Mem)
    ensures View(mem, []) == mem
  {
  }

  lemma Known(s: State, c: nat)
    requires Inv(s) && c < |s.cores|
    ensures CoreOk(s, c) && (s.mem.cpu == Some(c) ==> Owns(s.cores[c].pc)) && (Owns(s.cores[c].pc) ==> s.mem.locked)
  {
    assert Owns(s.cores[c].pc) <==> Owner(s, c);
  }

  // ---- Runs ----

  datatype Event = Event(c: nat, a: Act)

  /** After spin_initlock. */
  ghost predicate Init(s: State) {
    && !s.mem.locked && s.mem.cpu == None && s.mem.data == s.latest
    && forall c :: 0 <= c < |s.cores| ==> s.cores[c] == Core(Outside, [])
  }

  ghost predicate IsRun(ss: seq<State>, evs: seq<Event>) {
    && |ss| == |evs| + 1 && Init(ss[0])
    && forall i :: 0 <= i < |evs| ==> evs[i].c < |ss[i].cores| && Step(ss[i], evs[i].c, evs[i].a) == Some(ss[i + 1])
  }

  lemma {:induction false} RunKeeps(ss: seq<State>, evs: seq<Event>, n: nat)
    requires IsRun(ss, evs) && n < |ss|
    ensures Inv(ss[n])
  {
    hide View, Step;
    if n > 0 {
      hide Inv;
      RunKeeps(ss, evs, n - 1);
      StepKeeps(ss[n - 1], evs[n - 1].c, evs[n - 1].a);
    }
  }

  /** At every point of every interleaving: at most one CPU is between the two xchgs, no CPU has
      panicked, locked and cpu agree with the owner, and the owner reads what the critical
      sections stored last. */
  lemma MutualExclusion(ss: seq<State>, evs: seq<Event>, n: nat, c: nat, d: nat)
    requires IsRun(ss, evs) && n < |ss| && c < |ss[n].cores| && d < |ss[n].cores|
    ensures Owns(ss[n].cores[c].pc) && Owns(ss[n].cores[d].pc) ==> c == d
    ensures ss[n].cores[c].pc != Panicked
    ensures Owns(ss[n].cores[c].pc) ==> ss[n].mem.locked && View(ss[n].mem, ss[n].cores[c].buffer).data == ss[n].latest
    ensures ss[n].cores[c].pc == Inside ==> View(ss[n].mem, ss[n].cores[c].buffer).cpu == Some(c)
    ensures ss[n].mem.cpu == Some(c) ==> Owns(ss[n].cores[c].pc)
  {
    RunKeeps(ss, evs, n);
    Known(ss[n], c);
    assert Owns(ss[n].cores[c].pc) <==> Owner(ss[n], c);
    assert Owns(ss[n].cores[d].pc) <==> Owner(ss[n], d);
  }

  // ---- The lock as the rest of the kernel sees it ----

  ghost predicate HeldBy(s: State, lock: Option<nat>) {
    match lock
    case None => forall c: nat :: !Owner(s, c)
    case Some(c) => Owner(s, c)
  }

  /** Every step either leaves the owner, or takes a free lock for the CPU that steps, or frees
      the lock of the CPU that steps: the lock is one value, changed as the machine of
      environments and CPUs assumes. */
  lemma LockRefined(ss: seq<State>, evs: seq<Event>, n: nat, before: Option<nat>, after: Option<nat>)
    requires IsRun(ss, evs) && n < |evs| && HeldBy(ss[n], before) && HeldBy(ss[n + 1], after)
    ensures after == before || (before == None && after == Some(evs[n].c))
            || (before == Some(evs[n].c) && after == None)
  {
    hide View, Inv, MemOk;
    var s, t, c := ss[n], ss[n + 1], evs[n].c;
    RunKeeps(ss, evs, n);
    RunKeeps(ss, evs, n + 1);
    assert Unique(s) && Unique(t) by {
      Uniquely(s);
      Uniquely(t);
    }
    assert forall d: nat :: d != c ==> (Owner(s, d) <==> Owner(t, d));
  }

  lemma Uniquely(s: State)
    requires Inv(s)
    ensures Unique(s)
  {
  }

  // ---- Nobody is shut out ----

  /** The state after the steps `evs`, or None where one of them cannot be taken. */
  ghost function Exec(s: State, evs: seq<Event>): Option<State>
    decreases |evs|
  {
    if evs == [] then Some(s)
    else if evs[0].c >= |s.cores| then None
    else match Step(s, evs[0].c, evs[0].a)
      case None => None
      case Some(t) => Exec(t, evs[1..])
  }

  lemma {:induction false} ExecAppend(s: State, evs: seq<Event>, more: seq<Event>)
    requires Exec(s, evs).Some?
    ensures Exec(s, evs + more) == Exec(Exec(s, evs).value, more)
    decreases |evs|
  {
    hide Step;
    if evs == [] {
      assert evs + more == more;
    } else {
      assert (evs + more)[1..] == evs[1..] + more;
      ExecAppend(Step(s, evs[0].c, evs[0].a).value, evs[1..], more);
    }
  }

  lemma ExecOne(s: State, ev: Event, t: State, evs: seq<Event>)
    requires ev.c < |s.cores| && Step(s, ev.c, ev.a) == Some(t)
    ensures Exec(s, [ev] + evs) == Exec(t, evs)
  {
    hide Step;
    assert ([ev] + evs)[1..] == evs;
  }

  /** How far a CPU is from giving the lock back. */
  function ToGo(pc: Pc): nat {
    match pc
    case Record => 6
    case Inside => 5
    case CheckLocked => 4
    case CheckCpu => 3
    case Clear => 2
    case Drop => 1
    case _ => 0
  }

  /** The owner of the lock, left alone, gives it back, without a panic. */
  lemma {:induction false} OwnerReleases(s: State, c: nat) returns (evs: seq<Event>)
    requires Inv(s) && Owner(s, c)
    ensures forall k :: 0 <= k < |evs| ==> evs[k].c == c
    ensures Exec(s, evs).Some? && var t := Exec(s, evs).value;
              Inv(t) && !t.mem.locked && |t.cores| == |s.cores| && t.cores[c].pc == Outside
              && forall d :: 0 <= d < |s.cores| && d != c ==> t.cores[d] == s.cores[d]
    decreases ToGo(s.cores[c].pc), |s.cores[c].buffer|
  {
    hide View, Inv, CoreOk;
    var core := s.cores[c];
    var a := if core.pc == Drop && core.buffer != [] then Drain else if core.pc == Inside then Leave else Go;
    OwnerMoves(s, c);
    var t := Step(s, c, a).value;
    StepKeeps(s, c, a);
    if core.pc == Drop && core.buffer == [] {
      evs := [Event(c, a)];
      ExecOne(s, Event(c, a), t, []);
    } else {
      var rest := OwnerReleases(t, c);
      evs := [Event(c, a)] + rest;
      ExecOne(s, Event(c, a), t, rest);
    }
  }

  /** The owner's checks of the lock succeed. */
  lemma OwnerMoves(s: State, c: nat)
    requires Inv(s) && Owner(s, c)
    ensures var core := s.cores[c]; var seen := View(s.mem, core.buffer);
            core.pc == CheckLocked || core.pc == CheckCpu ==> seen.locked && seen.cpu == Some(c)
  {
    Known(s, c);
    ViewLocked(s.mem, s.cores[c].buffer);
  }

  function ToEnter(pc: Pc): nat {
    match pc
    case Outside => 4
    case HoldsLocked => 3
    case HoldsCpu => 2
    case Spin => 1
    case _ => 0
  }

  /** A CPU that wants a free lock, left alone, gets it. */
  lemma {:induction false} FreeLockTaken(s: State, c: nat) returns (evs: seq<Event>)
    requires Inv(s) && c < |s.cores| && !s.mem.locked
    ensures forall k :: 0 <= k < |evs| ==> evs[k].c == c
    ensures Exec(s, evs).Some? && var t := Exec(s, evs).value; |t.cores| == |s.cores| && t.cores[c].pc == Inside
    decreases ToEnter(s.cores[c].pc)
  {
    hide View, Inv, CoreOk;
    WaitsEmpty(s, c);
    var core := s.cores[c];
    var a := if core.pc == Outside then Enter else Go;
    ViewEmpty(s.mem);
    var t := Step(s, c, a).value;
    if core.pc == Spin {
      StepKeeps(s, c, a);
      var u := Step(t, c, Go).value;
      evs := [Event(c, Go), Event(c, Go)];
      ExecOne(t, Event(c, Go), u, []);
      ExecOne(s, Event(c, Go), t, [Event(c, Go)]);
      assert [Event(c, Go)] + [] == [Event(c, Go)] && [Event(c, Go)] + [Event(c, Go)] == evs;
    } else {
      StepKeeps(s, c, a);
      var rest := FreeLockTaken(t, c);
      evs := [Event(c, a)] + rest;
      ExecOne(s, Event(c, a), t, rest);
    }
  }

  /** While the lock is free no CPU owns it or has stores of its own under way. */
  lemma WaitsEmpty(s: State, c: nat)
    requires Inv(s) && c < |s.cores| && !s.mem.locked
    ensures !Owns(s.cores[c].pc) && s.cores[c].buffer == [] && s.cores[c].pc != Panicked && s.mem.cpu == None
  {
    Known(s, c);
  }

  /** From every point of every interleaving each CPU can still get the lock: its owner, if any, can
      give it back, and then the CPU can take it. */
  lemma CanEnter(ss: seq<State>, evs: seq<Event>, n: nat, c: nat) returns (more: seq<Event>)
    requires IsRun(ss, evs) && n < |ss| && c < |ss[n].cores|
    ensures Exec(ss[n], more).Some?
    ensures var t := Exec(ss[n], more).value; |t.cores| == |ss[n].cores| && t.cores[c].pc == Inside
  {
    hide View, Step;
    RunKeeps(ss, evs, n);
    var s := ss[n];
    if s.mem.locked {
      assert exists d: nat :: Owner(s, d);
      var d: nat :| Owner(s, d);
      hide Inv;
      var release := OwnerReleases(s, d);
      var enter := FreeLockTaken(Exec(s, release).value, c);
      ExecAppend(s, release, enter);
      more := release + enter;
    } else {
      hide Inv;
      more := FreeLockTaken(s, c);
    }
  }

  /** The lock code finds out wrong uses, at every point of every interleaving: a CPU inside that
      calls spin_lock again panics, and so does one that calls spin_unlock without having the lock. */
  lemma WrongUsePanics(ss: seq<State>, evs: seq<Event>, n: nat, c: nat)
    requires IsRun(ss, evs) && n < |ss| && c < |ss[n].cores|
    ensures var s, go := ss[n], Event(c, Go);
            && (s.cores[c].pc == Inside ==>
                  var t := Exec(At(s, c, HoldsLocked), [go, go]);
                  t.Some? && |t.value.cores| == |s.cores| && t.value.cores[c].pc == Panicked)
            && (!Owns(s.cores[c].pc) ==>
                  var t := Exec(At(s, c, CheckLocked), if s.mem.locked then [go, go] else [go]);
                  t.Some? && |t.value.cores| == |s.cores| && t.value.cores[c].pc == Panicked)
  {
    RunKeeps(ss, evs, n);
    var s, go := ss[n], Event(c, Go);
    Known(s, c);
    hide Inv, View;
    ViewLocked(s.mem, s.cores[c].buffer);
    ViewEmpty(s.mem);
    if s.cores[c].pc == Inside {
      var t := At(s, c, HoldsLocked);
      var u := At(t, c, HoldsCpu);
      ExecOne(u, go, At(u, c, Panicked), []);
      ExecOne(t, go, u, [go]);
      assert [go] + [] == [go] && [go] + [go] == [go, go];
    } else if !Owns(s.cores[c].pc) {
      var t := At(s, c, CheckLocked);
      if s.mem.locked {
        var u := At(t, c, CheckCpu);
        ExecOne(u, go, At(u, c, Panicked), []);
        ExecOne(t, go, u, [go]);
        assert [go] + [] == [go] && [go] + [go] == [go, go];
      } else {
        ExecOne(t, go, At(t, c, Panicked), []);
        assert [go] + [] == [go];
      }
    }
  }
}
