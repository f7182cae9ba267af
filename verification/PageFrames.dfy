/** User page-fault frames: kern/trap.c pushes them on the exception stack, lib/pfentry.S pops them. */
module PageFrames {
  import opened Word32
  import P = Paging

  const UXSTACKTOP := P.UTOP
  const FRAME := 52
  const SIZE := 56
  const SPACE := 0x1_0000_0000

  newtype Byte = x: int | 0 <= x < 256

  // ---- Little-endian words in byte memory ----

  type Mem = m: seq<Byte> | |m| == SPACE witness seq(SPACE, _ => 0)

  function Get(mem: Mem, a: nat): Uint32
    requires a + 4 <= SPACE
  {
    mem[a] as int + 0x100 * mem[a + 1] as int + 0x1_0000 * mem[a + 2] as int + 0x100_0000 * mem[a + 3] as int
  }

  function Put(mem: Mem, a: nat, w: Uint32): Mem
    requires a + 4 <= SPACE
  {
    mem[a := (w % 256) as Byte][a + 1 := (w / 0x100 % 256) as Byte]
       [a + 2 := (w / 0x1_0000 % 256) as Byte][a + 3 := (w / 0x100_0000 % 256) as Byte]
  }

  function PutWords(mem: Mem, a: nat, ws: seq<Uint32>): Mem
    requires a + 4 * |ws| <= SPACE
    decreases |ws|
  {
    if ws == [] then mem else PutWords(Put(mem, a, ws[0]), a + 4, ws[1..])
  }

  lemma GetPut(mem: Mem, a: nat, w: Uint32)
    requires a + 4 <= SPACE
    ensures Get(Put(mem, a, w), a) == w
  {
    Bytes(w);
  }

  /** The processor is little-endian. */
  lemma WordBytes(mem: Mem, a: nat, w: Uint32, k: nat)
    requires a + 4 <= SPACE && k < 4
    ensures Put(mem, a, w)[a + k] as int == w / [0x1, 0x100, 0x1_0000, 0x100_0000][k] % 256
    ensures Get(Put(mem, a, w), a) == w
  {
    GetPut(mem, a, w);
  }

  lemma Bytes(w: Uint32)
    ensures w ==
            w % 256 + 0x100 * (w / 0x100 % 256) + 0x1_0000 * (w / 0x1_0000 % 256) + 0x100_0000 * (w / 0x100_0000 % 256)
  {
    var x, y, z := w / 0x100, w / 0x1_0000, w / 0x100_0000;
    ByteAbove(w, 0x1, w, x);
    ByteAbove(w, 0x100, x, y);
    ByteAbove(w, 0x1_0000, y, z);
    assert z < 256;
  }

  lemma ByteAbove(w: nat, unit: nat, x: nat, y: nat)
    requires unit in {0x1, 0x100, 0x1_0000} && x == w / unit && y == w / (unit * 0x100)
    ensures x == 0x100 * y + x % 256
  {
  }

  /** The two memories agree on the bytes in [a, b). */
  ghost predicate Agree(m: Mem, n: Mem, a: int, b: int) {
    forall i :: a <= i < b && 0 <= i < SPACE ==> m[i] == n[i]
  }

  lemma PutElsewhere(mem: Mem, a: nat, w: Uint32, b: int, c: int)
    requires a + 4 <= SPACE && (c <= a || a + 4 <= b)
    ensures Agree(mem, Put(mem, a, w), b, c)
  {
  }

  lemma {:induction false} PutWordsElsewhere(mem: Mem, a: nat, ws: seq<Uint32>, b: int, c: int)
    requires a + 4 * |ws| <= SPACE && (c <= a || a + 4 * |ws| <= b)
    ensures Agree(mem, PutWords(mem, a, ws), b, c)
    decreases |ws|
  {
    hide Put;
    if ws != [] {
      PutElsewhere(mem, a, ws[0], b, c);
      PutWordsElsewhere(Put(mem, a, ws[0]), a + 4, ws[1..], b, c);
    }
  }

  lemma {:induction false} GetPutWords(mem: Mem, a: nat, ws: seq<Uint32>, k: nat)
    requires a + 4 * |ws| <= SPACE && k < |ws|
    ensures Get(PutWords(mem, a, ws), a + 4 * k) == ws[k]
    decreases |ws|
  {
    hide Put;
    var m := Put(mem, a, ws[0]);
    if k == 0 {
      GetPut(mem, a, ws[0]);
      PutWordsElsewhere(m, a + 4, ws[1..], a, a + 4);
    } else {
      GetPutWords(m, a + 4, ws[1..], k - 1);
    }
  }

  lemma {:induction false} PutWordsAppend(mem: Mem, a: nat, ws: seq<Uint32>, us: seq<Uint32>)
    requires a + 4 * |ws| + 4 * |us| <= SPACE
    ensures PutWords(mem, a, ws + us) == PutWords(PutWords(mem, a, ws), a + 4 * |ws|, us)
    decreases |ws|
  {
    hide Put;
    if ws == [] {
      assert ws + us == us;
    } else {
      assert (ws + us)[1..] == ws[1..] + us;
      PutWordsAppend(Put(mem, a, ws[0]), a + 4, ws[1..], us);
    }
  }

  // ---- Frames ----

  datatype Regs = Regs(edi: Uint32, esi: Uint32, ebp: Uint32, ebx: Uint32, edx: Uint32, ecx: Uint32, eax: Uint32)

  /** What a trap saves and a return must restore. */
  datatype Cpu = Cpu(regs: Regs, eip: Uint32, eflags: Uint32, esp: Uint32)

  /** What the processor reports of a fault; `oesp` is the word pushal saves and popal skips. */
  datatype Report = Report(va: Uint32, err: Uint32, oesp: Uint32)

  /** Where the frame goes: under the trap-time stack pointer if that is inside the exception
      stack page, at the top of that page if not. */
  function StackTop(esp: Uint32): (r: nat)
    ensures UXSTACKTOP - P.PGSIZE < r <= UXSTACKTOP
  {
    if UXSTACKTOP - P.PGSIZE < esp < UXSTACKTOP then esp else UXSTACKTOP
  }

  function FrameBase(esp: Uint32): nat {
    StackTop(esp) - SIZE
  }

  function RegWords(r: Regs, oesp: Uint32): seq<Uint32> {
    [r.edi, r.esi, r.ebp, oesp, r.ebx, r.edx, r.ecx, r.eax]
  }

  /** struct UTrapframe. */
  function FrameWords(f: Report, c: Cpu): (ws: seq<Uint32>)
    ensures 4 * |ws| == FRAME
  {
    [f.va, f.err] + RegWords(c.regs, f.oesp) + [c.eip, c.eflags, c.esp]
  }

  /** The processor state in the frame at `base`. */
  function Loaded(mem: Mem, base: nat): Cpu
    requires base + FRAME <= SPACE
  {
    Cpu(Regs(Get(mem, base + 8), Get(mem, base + 12), Get(mem, base + 16),
             Get(mem, base + 24), Get(mem, base + 28), Get(mem, base + 32), Get(mem, base + 36)),
        Get(mem, base + 40), Get(mem, base + 44), Get(mem, base + 48))
  }

  lemma LoadedAgree(m: Mem, n: Mem, base: nat)
    requires base + FRAME <= SPACE && Agree(m, n, base + 8, base + FRAME)
    ensures Loaded(m, base) == Loaded(n, base)
  {
  }

  lemma FrameLoads(mem: Mem, base: nat, f: Report, c: Cpu)
    requires base + FRAME <= SPACE
    ensures Loaded(PutWords(mem, base, FrameWords(f, c)), base) == c
  {
    hide PutWords, Get;
    var ws := FrameWords(f, c);
    forall k: nat | k < |ws|
      ensures Get(PutWords(mem, base, ws), base + 4 * k) == ws[k]
    {
      GetPutWords(mem, base, ws, k);
    }
    assert ws[2] == c.regs.edi && ws[3] == c.regs.esi && ws[4] == c.regs.ebp && ws[6] == c.regs.ebx;
    assert ws[7] == c.regs.edx && ws[8] == c.regs.ecx && ws[9] == c.regs.eax;
    assert ws[10] == c.eip && ws[11] == c.eflags && ws[12] == c.esp;
    assert base + 4 * 2 == base + 8 && base + 4 * 3 == base + 12 && base + 4 * 4 == base + 16
           && base + 4 * 6 == base + 24;
  }

  /** struct UTrapframe, field by field; the registers are in the order of pushal. */
  lemma FrameLayout(mem: Mem, base: nat, f: Report, c: Cpu)
    requires base + FRAME <= SPACE
    ensures var m := PutWords(mem, base, FrameWords(f, c));
            && Get(m, base) == f.va && Get(m, base + 4) == f.err
            && Get(m, base + 8) == c.regs.edi && Get(m, base + 12) == c.regs.esi && Get(m, base + 16) == c.regs.ebp
            && Get(m, base + 20) == f.oesp && Get(m, base + 24) == c.regs.ebx && Get(m, base + 28) == c.regs.edx
            && Get(m, base + 32) == c.regs.ecx && Get(m, base + 36) == c.regs.eax
            && Get(m, base + 40) == c.eip && Get(m, base + 44) == c.eflags && Get(m, base + 48) == c.esp
  {
    hide PutWords, Get;
    FrameLoads(mem, base, f, c);
    var ws := FrameWords(f, c);
    GetPutWords(mem, base, ws, 0);
    GetPutWords(mem, base, ws, 1);
    GetPutWords(mem, base, ws, 5);
    assert ws[0] == f.va && ws[1] == f.err && ws[5] == f.oesp;
  }

  /** All of [a, a + n) is in pages the environment may write. */
  predicate CanWrite(writable: set<int>, a: int, n: nat) {
    0 <= a && forall i :: a <= i < a + n ==> i / P.PGSIZE in writable
  }

  /** The processor at the pop's store, `movl %ecx, -4(%eax)`: both pointers are loaded, and esp is past
      the two words that the pop skips. */
  function AtStore(mem: Mem, cpu: Cpu, at: Uint32, eflags: Uint32): Cpu
    requires cpu.esp + FRAME <= SPACE
  {
    Cpu(cpu.regs.(eax := Get(mem, cpu.esp + 48), ecx := Get(mem, cpu.esp + 40)), at, eflags, cpu.esp + 8)
  }

  function Stored(mem: Mem, cpu: Cpu): Mem
    requires cpu.regs.eax >= 4
  {
    Put(mem, cpu.regs.eax - 4, cpu.regs.ecx)
  }

  /** What popal, popfl, popl %esp and ret leave, begun with esp at `p`. */
  function Popped(mem: Mem, p: nat): Cpu
    requires p + 44 <= SPACE && Get(mem, p + 40) >= 4
  {
    Cpu(Regs(Get(mem, p), Get(mem, p + 4), Get(mem, p + 8),
             Get(mem, p + 16), Get(mem, p + 20), Get(mem, p + 24), Get(mem, p + 28)),
        Get(mem, Get(mem, p + 40) - 4), Get(mem, p + 36), Get(mem, p + 40))
  }

  /** The pop stores eip in the word below the trap-time stack pointer: a word that is never part of the frame. */
  lemma ScratchApart(esp: Uint32)
    ensures esp <= FrameBase(esp) || FrameBase(esp) + FRAME <= esp - 4
  {
  }

  datatype Outcome = Panic | Destroyed | Resumed

  class Env {
    var cpu: Cpu
    var mem: Mem
    var upcall: Uint32
    var writable: set<int>

    constructor (cpu: Cpu, mem: Mem, upcall: Uint32, writable: set<int>)
      ensures this.cpu == cpu && this.mem == mem && this.upcall == upcall && this.writable == writable
    {
      this.cpu, this.mem, this.upcall, this.writable := cpu, mem, upcall, writable;
    }

    /** page_fault_handler. */
    method PageFaultHandler(f: Report, userMode: bool) returns (r: Outcome)
      modifies this`cpu, this`mem
      ensures r == if !userMode then Panic
                   else if upcall != 0 && CanWrite(writable, FrameBase(old(cpu).esp), SIZE) then Resumed
                   else Destroyed
      ensures r == Resumed ==>
                mem == PutWords(old(mem), FrameBase(old(cpu).esp), FrameWords(f, old(cpu))) &&
                cpu == old(cpu).(eip := upcall, esp := FrameBase(old(cpu).esp))
      ensures r != Resumed ==> mem == old(mem) && cpu == old(cpu)
      ensures r == Resumed ==> forall frames ::
                State(cpu, mem, writable, frames + [Frame(FrameBase(old(cpu).esp), old(cpu), false)]) ==
                Next(upcall, State(old(cpu), old(mem), writable, frames), Fault(f))
    {
      hide PutWords, Put;
      if !userMode {
        return Panic;
      }
      if upcall != 0 {
        var stacktop := UXSTACKTOP;
        if UXSTACKTOP - P.PGSIZE < cpu.esp && cpu.esp < UXSTACKTOP {
          stacktop := cpu.esp;
        }
        if !CanWrite(writable, stacktop - SIZE, SIZE) {
          return Destroyed;
        }
        var utr: nat := stacktop - SIZE;
        FrameInParts(mem, utr, f, cpu);
        mem := Put(mem, utr, f.va);
        mem := Put(mem, utr + 4, f.err);
        mem := PutWords(mem, utr + 8, RegWords(cpu.regs, f.oesp));
        mem := Put(mem, utr + 40, cpu.eip);
        mem := Put(mem, utr + 44, cpu.eflags);
        mem := Put(mem, utr + 48, cpu.esp);
        cpu := cpu.(eip := upcall);
        cpu := cpu.(esp := utr);
        return Resumed;
      }
      return Destroyed;
    }

    /** _pgfault_upcall once the C handler has returned, up to the store: `at` is the address of that
        instruction and `eflags` what the additions leave. */
    method UnwindToStore(at: Uint32, eflags: Uint32)
      requires cpu.esp + FRAME <= SPACE
      modifies this`cpu
      ensures cpu == AtStore(mem, old(cpu), at, eflags)
    {
      hide Get;
      cpu := cpu.(esp := cpu.esp + 8);
      cpu := cpu.(regs := cpu.regs.(eax := Get(mem, cpu.esp + 40)));
      cpu := cpu.(regs := cpu.regs.(ecx := Get(mem, cpu.esp + 32)));
      cpu := cpu.(eip := at, eflags := eflags);
    }

    /** From the store on, one instruction after the other.  A store that cannot be made is a fault
        and changes nothing. */
    method PopFromStore() returns (ok: bool)
      requires cpu.esp + 44 <= SPACE
      requires cpu.regs.eax >= 4 ==> Get(Stored(mem, cpu), cpu.esp + 40) >= 4
      modifies this`cpu, this`mem
      ensures ok == CanWrite(writable, old(cpu).regs.eax - 4, 4)
      ensures ok ==> mem == Stored(old(mem), old(cpu)) && cpu == Popped(mem, old(cpu).esp)
      ensures !ok ==> mem == old(mem) && cpu == old(cpu)
    {
      hide Get, Put;
      if !CanWrite(writable, cpu.regs.eax - 4, 4) {
        return false;
      }
      mem := Put(mem, cpu.regs.eax - 4, cpu.regs.ecx);
      // popal
      var s := cpu.esp;
      cpu := Cpu(Regs(Get(mem, s), Get(mem, s + 4), Get(mem, s + 8), Get(mem, s + 16), Get(mem, s + 20),
                      Get(mem, s + 24), Get(mem, s + 28)),
                 cpu.eip, cpu.eflags, s + 32);
      cpu := cpu.(esp := cpu.esp + 4);
      // popfl
      cpu := cpu.(eflags := Get(mem, cpu.esp), esp := cpu.esp + 4);
      // popl %esp
      cpu := cpu.(esp := Get(mem, cpu.esp));
      cpu := cpu.(esp := cpu.esp - 4);
      // ret
      cpu := cpu.(eip := Get(mem, cpu.esp), esp := cpu.esp + 4);
      ok := true;
    }

    /** Both parts: the processor gets what the frame holds, or stops at the store. */
    method PgfaultUpcallReturn(at: Uint32, eflags: Uint32) returns (ok: bool)
      requires cpu.esp + FRAME <= SPACE
      requires var esp := Loaded(mem, cpu.esp).esp; esp <= cpu.esp || cpu.esp + FRAME <= esp - 4
      modifies this`cpu, this`mem
      ensures var t := Loaded(old(mem), old(cpu).esp);
              && ok == CanWrite(writable, t.esp - 4, 4)
              && (ok ==> cpu == t && mem == Put(old(mem), t.esp - 4, t.eip))
              && (!ok ==> cpu == AtStore(mem, old(cpu), at, eflags) && mem == old(mem))
    {
      hide Get, Put;
      if Loaded(mem, cpu.esp).esp >= 4 {
        PopLoads(mem, cpu.esp);
      }
      UnwindToStore(at, eflags);
      ok := PopFromStore();
    }
  }

  lemma FrameInParts(mem: Mem, a: nat, f: Report, c: Cpu)
    requires a + FRAME <= SPACE
    ensures PutWords(mem, a, FrameWords(f, c)) ==
            Put(Put(Put(PutWords(Put(Put(mem, a, f.va), a + 4, f.err), a + 8, RegWords(c.regs, f.oesp)),
                        a + 40, c.eip), a + 44, c.eflags), a + 48, c.esp)
  {
    hide Put;
    var top, mid, low := [f.va, f.err], RegWords(c.regs, f.oesp), [c.eip, c.eflags, c.esp];
    PutWordsAppend(mem, a, top + mid, low);
    PutWordsAppend(mem, a, top, mid);
    PutTwo(mem, a, f.va, f.err);
    PutThree(PutWords(PutWords(mem, a, top), a + 8, mid), a + 40, c.eip, c.eflags, c.esp);
  }

  lemma PutTwo(mem: Mem, a: nat, v: Uint32, w: Uint32)
    requires a + 8 <= SPACE
    ensures PutWords(mem, a, [v, w]) == Put(Put(mem, a, v), a + 4, w)
  {
    hide Put;
    var m := Put(mem, a, v);
    assert [v, w][1..] == [w] && [w][1..] == [];
    assert PutWords(m, a + 4, [w]) == PutWords(Put(m, a + 4, w), a + 8, []);
  }

  lemma PutThree(mem: Mem, a: nat, u: Uint32, v: Uint32, w: Uint32)
    requires a + 12 <= SPACE
    ensures PutWords(mem, a, [u, v, w]) == Put(Put(Put(mem, a, u), a + 4, v), a + 8, w)
  {
    hide Put;
    assert [u, v, w][1..] == [v, w];
    PutTwo(Put(mem, a, u), a + 4, v, w);
  }

  lemma StoreApart(mem: Mem, base: nat, a: nat, w: Uint32)
    requires base + FRAME <= SPACE && a + 4 <= SPACE && (a + 4 <= base || base + FRAME <= a)
    ensures Loaded(Put(mem, a, w), base) == Loaded(mem, base) && Get(Put(mem, a, w), a) == w
  {
    hide Get, Put, Loaded;
    PutElsewhere(mem, a, w, base, base + FRAME);
    LoadedAgree(mem, Put(mem, a, w), base);
    GetPut(mem, a, w);
  }

  /** The store, and the pops behind it, give back what the frame holds. */
  lemma PopLoads(mem: Mem, base: nat)
    requires base + FRAME <= SPACE && Loaded(mem, base).esp >= 4
    requires var esp := Loaded(mem, base).esp; esp <= base || base + FRAME <= esp - 4
    ensures var c := Loaded(mem, base);
            var m := Put(mem, c.esp - 4, c.eip);
            Get(m, base + 48) == c.esp && Popped(m, base + 8) == c
  {
    hide Get, Put;
    var c := Loaded(mem, base);
    StoreApart(mem, base, c.esp - 4, c.eip);
    assert Loaded(Put(mem, c.esp - 4, c.eip), base) == c;
  }

  // ---- Nesting ----

  /** A fault being handled: where its frame is, what it interrupted, and whether its return has come
      as far as the store. */
  datatype Frame = Frame(base: nat, cpu: Cpu, popping: bool)

  datatype State = State(cpu: Cpu, mem: Mem, writable: set<int>, frames: seq<Frame>)

  /** A fault is delivered; the handler computes, and may change what can be written; it has returned,
      and _pgfault_upcall goes on to its store at `at`; the store is made and the frame popped. */
  datatype Event =
    | Fault(report: Report)
    | Work(cpu: Cpu, mem: Mem, writable: set<int>)
    | Unwind(at: Uint32, eflags: Uint32)
    | Pop

  function Last(s: State): Frame
    requires s.frames != []
  {
    s.frames[|s.frames| - 1]
  }

  predicate InPage(esp: int) {
    UXSTACKTOP - P.PGSIZE < esp < UXSTACKTOP
  }

  /** The processor is at the store of a pop. */
  predicate Popping(s: State) {
    s.frames != [] && Last(s).popping
  }

  /** The lowest frame: the handler's own stack is below it. */
  function Floor(s: State): int {
    if s.frames == [] then UXSTACKTOP else Last(s).base
  }

  /** The memory of the frames from the first word that the pop reads. */
  ghost predicate FramesAgree(frames: seq<Frame>, m: Mem, n: Mem) {
    forall k :: 0 <= k < |frames| ==> Agree(m, n, frames[k].base + 8, frames[k].base + FRAME)
  }

  /** What is taken of an environment.  A fault finds room (or the environment is destroyed, and
      its run is over); the store of a pop faults exactly when its word cannot be written; while a
      fault is handled the stack pointer is inside the exception stack page and not above the frame;
      the handler leaves the frames alone and returns with the stack pointer it was given. */
  ghost predicate Allowed(s: State, e: Event) {
    match e
    case Fault(_) =>
      && CanWrite(s.writable, FrameBase(s.cpu.esp), SIZE)
      && (s.frames != [] ==> UXSTACKTOP - P.PGSIZE < s.cpu.esp)
      && (if Popping(s) then !CanWrite(s.writable, s.cpu.regs.eax - 4, 4) else s.frames != [] ==> s.cpu.esp <= Floor(s))
    case Work(_, mem, _) => !Popping(s) && FramesAgree(s.frames, s.mem, mem)
    case Unwind(_, _) => s.frames != [] && !Popping(s) && s.cpu.esp == Floor(s)
    case Pop => Popping(s) && CanWrite(s.writable, s.cpu.regs.eax - 4, 4)
  }

  function Next(upcall: Uint32, s: State, e: Event): State {
    match e
    case Fault(f) =>
      var base := FrameBase(s.cpu.esp);
      State(s.cpu.(eip := upcall, esp := base), PutWords(s.mem, base, FrameWords(f, s.cpu)), s.writable,
            s.frames + [Frame(base, s.cpu, false)])
    case Work(cpu, mem, writable) => State(cpu, mem, writable, s.frames)
    case Unwind(at, eflags) =>
      if s.frames == [] || s.cpu.esp + FRAME > SPACE then s
      else s.(cpu := AtStore(s.mem, s.cpu, at, eflags), frames := s.frames[|s.frames| - 1 := Last(s).(popping := true)])
    case Pop =>
      if s.frames == [] || s.cpu.esp + 44 > SPACE || s.cpu.regs.eax < 4 then s
      else
        var m := Stored(s.mem, s.cpu);
        if Get(m, s.cpu.esp + 40) < 4 then s
        else s.(cpu := Popped(m, s.cpu.esp), mem := m, frames := s.frames[..|s.frames| - 1])
  }

  /** Every frame is where the kernel put it and still holds what its fault interrupted. */
  ghost predicate Intact(mem: Mem, f: Frame) {
    f.base == FrameBase(f.cpu.esp) && Loaded(mem, f.base) == f.cpu
  }

  /** Below a frame whose pop has faulted at its store, the next one reaches over the two words that
      the pop has skipped.  That store was to another stack: the exception stack can be written. */
  function Ceiling(g: Frame): int {
    if g.popping && !InPage(g.cpu.esp) then g.base + 8 else g.base
  }

  predicate Under(f: Frame, g: Frame) {
    UXSTACKTOP - P.PGSIZE < f.cpu.esp <= Ceiling(g)
  }

  /** Each frame but the first was pushed below all before it. */
  ghost predicate Stacked(frames: seq<Frame>) {
    forall j, k :: 0 <= j < k < |frames| ==> Under(frames[k], frames[j])
  }

  /** A processor at the store of the pop of `f`. */
  predicate Ready(cpu: Cpu, f: Frame) {
    cpu.esp == f.base + 8 && cpu.regs.eax == f.cpu.esp && cpu.regs.ecx == f.cpu.eip
  }

  /** What interrupted frame `k`'s handling, or is about to. */
  function Above(s: State, k: nat): Cpu
    requires k < |s.frames|
  {
    if k + 1 < |s.frames| then s.frames[k + 1].cpu else s.cpu
  }

  ghost predicate Inv(s: State) {
    && Stacked(s.frames)
    && (forall k :: 0 <= k < |s.frames| ==> Intact(s.mem, s.frames[k]))
    && (forall k: nat :: k < |s.frames| && s.frames[k].popping ==> Ready(Above(s, k), s.frames[k]))
  }

  /** Memory that agrees on what the pop reads of every frame keeps them all intact. */
  lemma IntactAgree(m: Mem, n: Mem, f: Frame)
    requires Intact(m, f) && Agree(m, n, f.base + 8, f.base + FRAME)
    ensures Intact(n, f)
  {
    LoadedAgree(m, n, f.base);
  }

  /** A frame that fits lies in the exception stack page at least with its last word. */
  lemma StackWritable(writable: set<int>, esp: Uint32)
    requires CanWrite(writable, FrameBase(esp), SIZE)
    ensures STACK_PAGE in writable
  {
    var i := FrameBase(esp) + SIZE - 1;
    assert i / P.PGSIZE in writable && i / P.PGSIZE == STACK_PAGE;
  }

  /** Where the pop's store faults and the kernel can push, the word belongs to another stack. */
  lemma StoreElsewhere(s: State, f: Report)
    requires Inv(s) && Allowed(s, Fault(f)) && Popping(s)
    ensures !InPage(Last(s).cpu.esp) && s.cpu.esp == Ceiling(Last(s)) == Last(s).base + 8
  {
    hide Loaded;
    var last := Last(s);
    assert Intact(s.mem, last) && Ready(s.cpu, last);
    StackWritable(s.writable, s.cpu.esp);
    if InPage(last.cpu.esp) {
      forall i | last.cpu.esp - 4 <= i < last.cpu.esp
        ensures i / P.PGSIZE in s.writable
      {
        assert i / P.PGSIZE == STACK_PAGE;
      }
      assert false;
    }
  }

  lemma StackedPush(mem: Mem, frames: seq<Frame>, f: Frame)
    requires Stacked(frames) && forall k :: 0 <= k < |frames| ==> Intact(mem, frames[k])
    requires frames != [] ==> Under(f, frames[|frames| - 1])
    ensures Stacked(frames + [f])
  {
    hide Loaded;
    if frames != [] {
      var last := frames[|frames| - 1];
      assert Intact(mem, last);
      forall j | 0 <= j < |frames|
        ensures Under(f, frames[j])
      {
        assert j < |frames| - 1 ==> Under(last, frames[j]);
        assert Intact(mem, frames[j]);
      }
    }
  }

  /** A push below all frames changes no word that a pop will read. */
  lemma PushApart(mem: Mem, frames: seq<Frame>, f: Report, cpu: Cpu)
    requires forall k :: 0 <= k < |frames| ==> Intact(mem, frames[k])
    requires forall k :: 0 <= k < |frames| ==> InPage(cpu.esp) && cpu.esp <= frames[k].base + 8
    ensures var m := PutWords(mem, FrameBase(cpu.esp), FrameWords(f, cpu));
            forall k :: 0 <= k < |frames| ==> Intact(m, frames[k])
  {
    hide Loaded, PutWords, Agree;
    var base, ws := FrameBase(cpu.esp), FrameWords(f, cpu);
    forall k | 0 <= k < |frames|
      ensures Intact(PutWords(mem, base, ws), frames[k])
    {
      PutWordsElsewhere(mem, base, ws, frames[k].base + 8, frames[k].base + FRAME);
      IntactAgree(mem, PutWords(mem, base, ws), frames[k]);
    }
  }

  lemma FaultKeeps(upcall: Uint32, s: State, f: Report)
    requires Inv(s) && Allowed(s, Fault(f))
    ensures Inv(Next(upcall, s, Fault(f)))
  {
    hide Loaded, PutWords, FrameWords;
    var frame := Frame(FrameBase(s.cpu.esp), s.cpu, false);
    var t := Next(upcall, s, Fault(f));
    FrameLoads(s.mem, frame.base, f, s.cpu);
    assert Intact(t.mem, frame);
    if s.frames != [] {
      assert Intact(s.mem, Last(s));
      if Popping(s) { StoreElsewhere(s, f); }
      assert Under(frame, Last(s));
    }
    StackedPush(s.mem, s.frames, frame);
    forall k | 0 <= k < |s.frames|
      ensures InPage(s.cpu.esp) && s.cpu.esp <= s.frames[k].base + 8
    {
      assert Under(t.frames[|s.frames|], t.frames[k]) && Intact(s.mem, s.frames[k]);
    }
    PushApart(s.mem, s.frames, f, s.cpu);
    assert forall k: nat :: k < |s.frames| ==> Above(t, k) == Above(s, k);
  }

  lemma WorkKeeps(upcall: Uint32, s: State, e: Event)
    requires Inv(s) && e.Work? && Allowed(s, e)
    ensures Inv(Next(upcall, s, e))
  {
    hide Loaded, Agree;
    forall k | 0 <= k < |s.frames|
      ensures Intact(e.mem, s.frames[k])
    {
      IntactAgree(s.mem, e.mem, s.frames[k]);
    }
    assert forall k: nat :: k + 1 < |s.frames| ==> Above(Next(upcall, s, e), k) == Above(s, k);
  }

  lemma UnwindKeeps(upcall: Uint32, s: State, e: Event)
    requires Inv(s) && e.Unwind? && Allowed(s, e)
    ensures var t := Next(upcall, s, e); Inv(t) && Popping(t) && Ready(t.cpu, Last(t)) && |t.frames| == |s.frames|
  {
    hide Get;
    var n := |s.frames| - 1;
    var t := Next(upcall, s, e);
    assert Intact(s.mem, s.frames[n]);
    assert Loaded(s.mem, s.cpu.esp) == s.frames[n].cpu;
    forall k: nat | k < |t.frames| && t.frames[k].popping
      ensures Ready(Above(t, k), t.frames[k])
    {
      if k < n { assert Above(t, k) == Above(s, k); }
    }
    forall j, k | 0 <= j < k < |t.frames|
      ensures Under(t.frames[k], t.frames[j])
    {
      assert Under(s.frames[k], s.frames[j]);
    }
    forall k | 0 <= k < |t.frames| ensures Intact(t.mem, t.frames[k]) {
      assert Intact(s.mem, s.frames[k]);
    }
  }

  /** The pop gives back exactly the interrupted state, and the frames outside it stay intact. */
  lemma ReturnRestores(upcall: Uint32, s: State)
    requires Inv(s) && Allowed(s, Pop)
    ensures var t := Next(upcall, s, Pop);
            && t.cpu == Last(s).cpu && t.frames == s.frames[..|s.frames| - 1] && Inv(t)
            && t.mem == Put(s.mem, t.cpu.esp - 4, t.cpu.eip)
  {
    hide Loaded, Agree, Put, Get, Popped;
    var f := Last(s);
    assert Intact(s.mem, f) && Ready(s.cpu, f);
    var t := Next(upcall, s, Pop);
    ScratchApart(f.cpu.esp);
    PopLoads(s.mem, f.base);
    forall k | 0 <= k < |t.frames|
      ensures Intact(t.mem, t.frames[k])
    {
      assert Under(f, s.frames[k]) && Intact(s.mem, s.frames[k]);
      PutElsewhere(s.mem, f.cpu.esp - 4, f.cpu.eip, s.frames[k].base + 8, s.frames[k].base + FRAME);
      IntactAgree(s.mem, t.mem, s.frames[k]);
    }
    assert forall k: nat :: k < |t.frames| ==> Above(t, k) == Above(s, k);
  }

  ghost predicate IsRun(upcall: Uint32, states: seq<State>, events: seq<Event>) {
    && |states| == |events| + 1 && Inv(states[0])
    && forall i :: 0 <= i < |events| ==> IsStep(upcall, states[i], events[i], states[i + 1])
  }

  ghost predicate IsStep(upcall: Uint32, s: State, e: Event, t: State) {
    Allowed(s, e) && t == Next(upcall, s, e)
  }

  lemma {:induction false} RunKeeps(upcall: Uint32, states: seq<State>, events: seq<Event>, n: nat)
    requires IsRun(upcall, states, events) && n <= |events|
    ensures Inv(states[n])
  {
    hide Inv;
    if n > 0 {
      RunKeeps(upcall, states, events, n - 1);
      StepKeeps(upcall, states[n - 1], events[n - 1], states[n]);
    }
  }

  lemma StepKeeps(upcall: Uint32, s: State, e: Event, t: State)
    requires Inv(s) && IsStep(upcall, s, e, t)
    ensures Inv(t)
  {
    hide Inv, Next, Allowed;
    match e
    case Fault(f) => FaultKeeps(upcall, s, f);
    case Work(_, _, _) => WorkKeeps(upcall, s, e);
    case Unwind(_, _) => UnwindKeeps(upcall, s, e);
    case Pop => ReturnRestores(upcall, s);
  }

  /** One step that starts and ends with frames above the first `d` leaves those alone. */
  lemma OuterFramesStep(upcall: Uint32, s: State, e: Event, t: State, d: nat)
    requires Inv(s) && IsStep(upcall, s, e, t) && |s.frames| > d && |t.frames| > d
    ensures t.frames[..d] == s.frames[..d] && t.frames[d].cpu == s.frames[d].cpu
  {
    hide Inv, Loaded, Popped, Stored, PutWords;
    if e.Pop? { ReturnRestores(upcall, s); }
  }

  /** While a run stays deeper than `d` frames, the `d` outermost stay the same, and so does what the
      next one interrupted. */
  lemma {:induction false} OuterFramesStay(upcall: Uint32, states: seq<State>, events: seq<Event>, d: nat, n: nat)
    requires IsRun(upcall, states, events) && 1 <= n <= |events|
    requires forall i :: 1 <= i <= n ==> |states[i].frames| > d
    ensures states[n].frames[..d] == states[1].frames[..d] && states[n].frames[d].cpu == states[1].frames[d].cpu
  {
    hide Inv, Next, Allowed;
    if n > 1 {
      OuterFramesStay(upcall, states, events, d, n - 1);
      RunKeeps(upcall, states, events, n - 1);
      assert IsStep(upcall, states[n - 1], events[n - 1], states[n]);
      OuterFramesStep(upcall, states[n - 1], events[n - 1], states[n], d);
    }
  }

  /** A fault and the return that matches it, with any computation and any complete nested faults
      in between, the pop's own store included, leave the processor as it was: general registers,
      eip, eflags and esp. */
  lemma FaultUndone(upcall: Uint32, states: seq<State>, events: seq<Event>)
    requires IsRun(upcall, states, events) && |events| >= 2
    requires events[0].Fault? && events[|events| - 1].Pop?
    requires forall i :: 1 <= i < |events| ==> |states[i].frames| > |states[0].frames|
    requires |states[|events|].frames| == |states[0].frames|
    ensures states[|events|].cpu == states[0].cpu && states[|events|].frames == states[0].frames
  {
    hide Inv, Loaded, Popped, Stored, PutWords;
    var n, d := |events|, |states[0].frames|;
    RunKeeps(upcall, states, events, n - 1);
    assert IsStep(upcall, states[0], events[0], states[1]);
    assert IsStep(upcall, states[n - 1], events[n - 1], states[n]);
    OuterFramesStay(upcall, states, events, d, n - 1);
    ReturnRestores(upcall, states[n - 1]);
    assert states[1].frames[d] == Frame(FrameBase(states[0].cpu.esp), states[0].cpu, false);
    assert |states[n - 1].frames| == d + 1;
    assert states[1].frames[..d] == states[0].frames;
  }

  // ---- Room ----

  const STACK_PAGE := UXSTACKTOP / P.PGSIZE - 1
  const GUARD_PAGE := UXSTACKTOP / P.PGSIZE - 2

  /** With the exception stack page mapped and the page under it not, a frame is pushed exactly
      when it fits in the page; else the environment is destroyed. */
  lemma PushedIffRoom(writable: set<int>, esp: Uint32)
    requires STACK_PAGE in writable && GUARD_PAGE !in writable
    ensures CanWrite(writable, FrameBase(esp), SIZE) <==>
            !(UXSTACKTOP - P.PGSIZE < esp < UXSTACKTOP - P.PGSIZE + SIZE)
  {
    var base := FrameBase(esp);
    if base < UXSTACKTOP - P.PGSIZE {
      assert base / P.PGSIZE == GUARD_PAGE;
    } else {
      forall i | base <= i < base + SIZE
        ensures i / P.PGSIZE in writable
      {
        assert i / P.PGSIZE == STACK_PAGE;
      }
    }
  }

  /** Only the first frame can be one whose pop faulted, so that one gap is smaller. */
  lemma {:induction false} StackUse(frames: seq<Frame>, mem: Mem)
    requires frames != [] && Stacked(frames) && forall k :: 0 <= k < |frames| ==> Intact(mem, frames[k])
    ensures frames[|frames| - 1].base <= UXSTACKTOP - SIZE * |frames| + if |frames| > 1 then 8 else 0
  {
    hide Loaded;
    var n := |frames| - 1;
    assert Intact(mem, frames[n]);
    if n > 0 {
      StackUse(frames[..n], mem);
      assert Under(frames[n], frames[n - 1]);
      if n > 1 {
        assert Under(frames[n - 1], frames[0]) && Intact(mem, frames[0]);
      }
    }
  }

  /** No run has more than 73 frames on the page. */
  lemma DepthBound(s: State, f: Report)
    requires Inv(s) && Allowed(s, Fault(f)) && STACK_PAGE in s.writable && GUARD_PAGE !in s.writable
    ensures |s.frames| < 73
  {
    hide Loaded;
    PushedIffRoom(s.writable, s.cpu.esp);
    if s.frames != [] {
      StackUse(s.frames, s.mem);
      assert Intact(s.mem, Last(s));
      if Popping(s) { StoreElsewhere(s, f); }
    }
  }

  /** Faults one after the other, each in the first instruction of the handler of the one before. */
  function Nested(upcall: Uint32, s: State, fs: seq<Report>): State {
    if fs == [] then s else Next(upcall, Nested(upcall, s, fs[..|fs| - 1]), Fault(fs[|fs| - 1]))
  }

  lemma {:induction false} NestedFit(upcall: Uint32, s: State, fs: seq<Report>)
    requires Inv(s) && s.frames == [] && FrameBase(s.cpu.esp) == UXSTACKTOP - SIZE
    requires STACK_PAGE in s.writable && |fs| <= 73
    ensures var t := Nested(upcall, s, fs);
            && |t.frames| == |fs| && !Popping(t) && t.writable == s.writable
            && (fs != [] ==> t.cpu.esp == Floor(t) == UXSTACKTOP - SIZE * |fs|)
    ensures |fs| < 73 ==> forall f :: Allowed(Nested(upcall, s, fs), Fault(f))
  {
    hide Inv, PutWords, FrameWords;
    var t := Nested(upcall, s, fs);
    if fs != [] {
      NestedFit(upcall, s, fs[..|fs| - 1]);
    }
    if |fs| < 73 {
      assert FrameBase(t.cpu.esp) == UXSTACKTOP - SIZE * (|fs| + 1);
      forall i | FrameBase(t.cpu.esp) <= i < FrameBase(t.cpu.esp) + SIZE
        ensures i / P.PGSIZE in s.writable
      {
        assert i / P.PGSIZE == STACK_PAGE;
      }
    }
  }

  /** And 73 do fit: faults nested that deep are a run, from any state with no fault under way. */
  lemma DepthReached(upcall: Uint32, s: State, fs: seq<Report>)
    requires Inv(s) && s.frames == [] && !InPage(s.cpu.esp)
    requires STACK_PAGE in s.writable && |fs| <= 73
    ensures IsRun(upcall, seq(|fs| + 1, n requires 0 <= n <= |fs| => Nested(upcall, s, fs[..n])),
                  seq(|fs|, n requires 0 <= n < |fs| => Fault(fs[n])))
    ensures |Nested(upcall, s, fs).frames| == |fs|
  {
    hide Inv, Allowed, Next;
    NestedFit(upcall, s, fs);
    forall n | 0 <= n < |fs|
      ensures IsStep(upcall, Nested(upcall, s, fs[..n]), Fault(fs[n]), Nested(upcall, s, fs[..n + 1]))
    {
      NestedFit(upcall, s, fs[..n]);
      assert fs[..n + 1][..n] == fs[..n];
    }
  }

  // ---- A fault of the pop itself ----

  /** The pop's own store faults where fork has made the trap-time stack copy-on-write, and the code
      survives it: the nested handler gets the page `writable`, and both pops restore what they should. */
  lemma StoreFaultSurvived(upcall: Uint32, s: State, f: Report, g: Report, writable: set<int>, at: Uint32,
                           eflags: Uint32)
      returns (states: seq<State>)
    requires Inv(s) && s.frames == [] && !InPage(s.cpu.esp) && STACK_PAGE in s.writable
    requires !CanWrite(s.writable, s.cpu.esp - 4, 4)
    requires STACK_PAGE in writable && CanWrite(writable, s.cpu.esp - 4, 4)
    ensures |states| == 8 && states[0] == s && states[7].cpu == s.cpu && states[7].frames == []
    ensures IsRun(upcall, states, [Fault(f), Unwind(at, eflags), Fault(g), Work(states[3].cpu, states[3].mem, writable),
                                   Unwind(at, eflags), Pop, Pop])
  {
    hide Inv, PutWords, FrameWords, Loaded, Stored, Popped, IsRun, AtStore;
    NestedFit(upcall, s, []);
    assert Nested(upcall, s, []) == s;
    var s1 := Next(upcall, s, Fault(f));
    FaultKeeps(upcall, s, f);
    var s2 := Next(upcall, s1, Unwind(at, eflags));
    UnwindKeeps(upcall, s1, Unwind(at, eflags));
    InnerFits(s.writable, s2.cpu.esp);
    var s3 := Next(upcall, s2, Fault(g));
    FaultKeeps(upcall, s2, g);
    var work := Work(s3.cpu, s3.mem, writable);
    var s4 := Next(upcall, s3, work);
    WorkKeeps(upcall, s3, work);
    var s5 := Next(upcall, s4, Unwind(at, eflags));
    UnwindKeeps(upcall, s4, Unwind(at, eflags));
    InnerFits(writable, s2.cpu.esp);
    var s6 := Next(upcall, s5, Pop);
    ReturnRestores(upcall, s5);
    var s7 := Next(upcall, s6, Pop);
    ReturnRestores(upcall, s6);
    var again := Unwind(at, eflags);
    assert IsStep(upcall, s, Fault(f), s1) && IsStep(upcall, s1, again, s2) && IsStep(upcall, s2, Fault(g), s3);
    assert IsStep(upcall, s3, work, s4) && IsStep(upcall, s4, again, s5);
    assert IsStep(upcall, s5, Pop, s6) && IsStep(upcall, s6, Pop, s7);
    states := [s, s1, s2, s3, s4, s5, s6, s7];
    SevenSteps(upcall, states, [Fault(f), again, Fault(g), work, again, Pop, Pop]);
  }

  lemma SevenSteps(upcall: Uint32, states: seq<State>, events: seq<Event>)
    requires |events| == 7 && |states| == 8 && Inv(states[0])
    requires IsStep(upcall, states[0], events[0], states[1]) && IsStep(upcall, states[1], events[1], states[2])
    requires IsStep(upcall, states[2], events[2], states[3]) && IsStep(upcall, states[3], events[3], states[4])
    requires IsStep(upcall, states[4], events[4], states[5]) && IsStep(upcall, states[5], events[5], states[6])
    requires IsStep(upcall, states[6], events[6], states[7])
    ensures IsRun(upcall, states, events)
  {
    hide Inv, IsStep;
  }

  /** Eight bytes into the first frame a second one still fits, and its pop's word can be written. */
  lemma InnerFits(writable: set<int>, esp: Uint32)
    requires STACK_PAGE in writable && esp == UXSTACKTOP - SIZE + 8
    ensures InPage(esp) && CanWrite(writable, FrameBase(esp), SIZE) && CanWrite(writable, esp - 4, 4)
  {
    forall i | FrameBase(esp) <= i < esp
      ensures i / P.PGSIZE in writable
    {
      assert i / P.PGSIZE == STACK_PAGE;
    }
  }

  // ---- The boundary ----

  /** Frame 1 was pushed when the pop of frame 0 faulted at its store, so that the last word of frame 1
      is the first of frame 0. */
  predicate Overlaps(frames: seq<Frame>) {
    |frames| > 1 && frames[1].cpu.esp == frames[0].base + 8
  }

  /** A fault with the stack pointer outside the exception stack page, be it below the bottom after an
      overflow, at it, or above the top, is taken for the first: its frame goes over the first one.
      Then the frames under way survive only where the push writes again what is there. */
  predicate Spared(s: State, f: Report)
    requires s.frames != []
  {
    InPage(s.cpu.esp) || (s.cpu == s.frames[0].cpu && (Overlaps(s.frames) ==> f.va == s.frames[1].cpu.esp))
  }

  /** When a push keeps the frames under way: for every stack pointer, except one inside the page but
      above the frames, which no handler that keeps the calling convention has. */
  lemma OuterKeptIff(s: State, f: Report)
    requires Inv(s) && s.frames != [] && s.frames[0].base == UXSTACKTOP - SIZE
    requires InPage(s.cpu.esp) ==> s.cpu.esp <= Ceiling(Last(s))
    ensures var m := PutWords(s.mem, FrameBase(s.cpu.esp), FrameWords(f, s.cpu));
            (forall k :: 0 <= k < |s.frames| ==> Intact(m, s.frames[k])) <==> Spared(s, f)
  {
    hide Loaded, PutWords, FrameWords;
    if InPage(s.cpu.esp) {
      var frame := Frame(FrameBase(s.cpu.esp), s.cpu, false);
      StackedPush(s.mem, s.frames, frame);
      forall k | 0 <= k < |s.frames|
        ensures s.cpu.esp <= s.frames[k].base + 8
      {
        assert Under((s.frames + [frame])[|s.frames|], (s.frames + [frame])[k]);
      }
      PushApart(s.mem, s.frames, f, s.cpu);
    } else {
      OuterOverwritten(s, f);
    }
  }

  lemma OuterOverwritten(s: State, f: Report)
    requires Inv(s) && s.frames != [] && s.frames[0].base == UXSTACKTOP - SIZE && !InPage(s.cpu.esp)
    ensures var m := PutWords(s.mem, FrameBase(s.cpu.esp), FrameWords(f, s.cpu));
            (forall k :: 0 <= k < |s.frames| ==> Intact(m, s.frames[k])) <==>
            s.cpu == s.frames[0].cpu && (Overlaps(s.frames) ==> f.va == s.frames[1].cpu.esp)
  {
    hide Loaded, PutWords, FrameWords, Agree;
    var base, ws := FrameBase(s.cpu.esp), FrameWords(f, s.cpu);
    var m := PutWords(s.mem, base, ws);
    FrameLoads(s.mem, base, f, s.cpu);
    assert Intact(s.mem, s.frames[0]);
    assert Intact(m, s.frames[0]) <==> s.cpu == s.frames[0].cpu;
    forall k | 1 <= k < |s.frames|
      ensures Intact(m, s.frames[k]) <==> (k == 1 && Overlaps(s.frames) ==> f.va == s.frames[1].cpu.esp)
    {
      InnerOverwritten(s, f, k);
    }
  }

  lemma InnerOverwritten(s: State, f: Report, k: nat)
    requires Inv(s) && 1 <= k < |s.frames| && s.frames[0].base == UXSTACKTOP - SIZE && !InPage(s.cpu.esp)
    ensures var m := PutWords(s.mem, FrameBase(s.cpu.esp), FrameWords(f, s.cpu));
            Intact(m, s.frames[k]) <==> (k == 1 && Overlaps(s.frames) ==> f.va == s.frames[1].cpu.esp)
  {
    hide Loaded, PutWords, Agree, Get;
    var base, ws := FrameBase(s.cpu.esp), FrameWords(f, s.cpu);
    var m, frame := PutWords(s.mem, base, ws), s.frames[k];
    assert Under(frame, s.frames[0]) && Intact(s.mem, s.frames[0]) && Intact(s.mem, frame);
    if k > 1 { assert Under(frame, s.frames[1]) && Under(s.frames[1], s.frames[0]) && Intact(s.mem, s.frames[1]); }
    if k == 1 && Overlaps(s.frames) {
      PutWordsElsewhere(s.mem, base, ws, frame.base, base);
      GetPutWords(s.mem, base, ws, 0);
      LoadedButEsp(s.mem, m, frame.base);
    } else {
      PutWordsElsewhere(s.mem, base, ws, frame.base + 8, frame.base + FRAME);
      IntactAgree(s.mem, m, frame);
    }
  }

  lemma LoadedButEsp(m: Mem, n: Mem, base: nat)
    requires base + FRAME <= SPACE && Agree(m, n, base, base + 48)
    ensures Loaded(n, base) == Loaded(m, base).(esp := Get(n, base + 48))
  {
  }

  /** It happens: any environment whose handler of a first fault takes esp out of the page, for
      instance below its bottom, and faults there loses that first frame, and the second push is not
      refused. */
  lemma OuterLost(upcall: Uint32, s: State, f: Report, g: Report, cpu: Cpu)
    requires s.frames == [] && !InPage(s.cpu.esp) && STACK_PAGE in s.writable
    requires !InPage(cpu.esp) && cpu != s.cpu
    ensures var s1 := Next(upcall, s, Fault(f));
            var work := Work(cpu, s1.mem, s1.writable);
            var s2 := Next(upcall, s1, work);
            && IsRun(upcall, [s, s1, s2], [Fault(f), work])
            && CanWrite(s2.writable, FrameBase(s2.cpu.esp), SIZE)
            && s2.frames == [Frame(UXSTACKTOP - SIZE, s.cpu, false)]
            && !Intact(Next(upcall, s2, Fault(g)).mem, s2.frames[0])
  {
    hide Loaded, PutWords, FrameWords;
    var s1 := Next(upcall, s, Fault(f));
    var work := Work(cpu, s1.mem, s1.writable);
    var s2 := Next(upcall, s1, work);
    NestedFit(upcall, s, []);
    assert Nested(upcall, s, []) == s;
    FaultKeeps(upcall, s, f);
    WorkKeeps(upcall, s1, work);
    OuterKeptIff(s2, g);
    assert IsStep(upcall, s, Fault(f), s1) && IsStep(upcall, s1, work, s2);
  }
}
