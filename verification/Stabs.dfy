/** kern/kdebug.c: stab_binsearch, the binary search over a symbol table whose entries of several
    types are interleaved. */
module Stabs {
  import opened Word32

  datatype Stab = Stab(kind: int, value: Uint32)

  const ADDR_LIMIT := 0x1_0000_0000

  /** Entry `i` is of the wanted kind and lies in [lo, hi]. */
  predicate Match(stabs: seq<Stab>, kind: int, lo: int, hi: int, i: int) {
    lo <= i <= hi && 0 <= i < |stabs| && stabs[i].kind == kind
  }

  /** The wanted entries are in order of address. */
  ghost predicate Sorted(stabs: seq<Stab>, kind: int, lo: int, hi: int) {
    forall i, j :: Match(stabs, kind, lo, hi, i) && Match(stabs, kind, lo, hi, j) && i < j ==>
      stabs[i].value <= stabs[j].value
  }

  /** The last entry of the kind in [l, m], or l - 1. */
  function LastMatch(stabs: seq<Stab>, kind: int, l: int, m: int): (r: int)
    requires 0 <= l <= m + 1 <= |stabs|
    ensures l - 1 <= r <= m
    ensures r >= l ==> stabs[r].kind == kind
    ensures forall i :: r < i <= m ==> stabs[i].kind != kind
    decreases m - l + 1
  {
    if m < l || stabs[m].kind == kind then m else LastMatch(stabs, kind, l, m - 1)
  }

  /** The variables of the search: l, r, addr, any_matches, *region_left and *region_right. */
  datatype State = State(l: int, r: int, addr: nat, any: bool, left: int, right: int)

  predicate InRange(stabs: seq<Stab>, s: State) {
    0 <= s.l && s.r < |stabs| && s.addr < ADDR_LIMIT && 0 <= s.left && s.right < |stabs|
  }

  function Mid(s: State): int {
    (s.l + s.r) / 2
  }

  function Probe(stabs: seq<Stab>, kind: int, s: State): (m: int)
    requires InRange(stabs, s) && s.l <= s.r
    ensures s.l - 1 <= m <= Mid(s) <= s.r
  {
    LastMatch(stabs, kind, s.l, Mid(s))
  }

  /** One turn of the loop. */
  function Turn(stabs: seq<Stab>, kind: int, s: State): (t: State)
    requires InRange(stabs, s) && s.l <= s.r
    ensures InRange(stabs, t)
  {
    var m := Probe(stabs, kind, s);
    if m < s.l then s.(l := Mid(s) + 1)
    else if stabs[m].value < s.addr then s.(any := true, left := m, l := Mid(s) + 1)
    else if stabs[m].value > s.addr then s.(any := true, right := m - 1, r := m - 1)
    else s.(any := true, left := m, l := m, addr := (s.addr + 1) % ADDR_LIMIT)
  }

  /** An exact hit at `l` leaves the interval as it is, but the entry found no longer hits. */
  function Measure(stabs: seq<Stab>, kind: int, s: State): nat
    requires InRange(stabs, s)
  {
    if s.l > s.r then 0
    else
      var m := Probe(stabs, kind, s);
      2 * (s.r - s.l + 1) + if m >= s.l && stabs[m].value == s.addr then 1 else 0
  }

  lemma TurnDecreases(stabs: seq<Stab>, kind: int, s: State)
    requires InRange(stabs, s) && s.l <= s.r
    ensures Measure(stabs, kind, Turn(stabs, kind, s)) < Measure(stabs, kind, s)
  {
  }

  function Loop(stabs: seq<Stab>, kind: int, s: State): (t: State)
    requires InRange(stabs, s)
    ensures InRange(stabs, t) && t.l > t.r
    decreases Measure(stabs, kind, s)
  {
    if s.l > s.r then s
    else
      TurnDecreases(stabs, kind, s);
      Loop(stabs, kind, Turn(stabs, kind, s))
  }

  function Scan(stabs: seq<Stab>, kind: int, left: int, l: int): int
    requires l < |stabs| && 0 <= left
    decreases l - left
  {
    if l > left && stabs[l].kind != kind then Scan(stabs, kind, left, l - 1) else l
  }

  /** What the search leaves in *region_left and *region_right. */
  function Search(stabs: seq<Stab>, kind: int, lo: int, hi: int, addr: nat): (r: (int, int))
    requires 0 <= lo && hi < |stabs| && addr < ADDR_LIMIT
  {
    var s := Loop(stabs, kind, State(lo, hi, addr, false, lo, hi));
    if !s.any then (s.left, s.left - 1)
    else (Scan(stabs, kind, s.left, s.right), s.right)
  }

  lemma TurnIs(stabs: seq<Stab>, kind: int, s: State)
    requires InRange(stabs, s) && s.l <= s.r
    ensures Loop(stabs, kind, s) == Loop(stabs, kind, Turn(stabs, kind, s))
    ensures var m := LastMatch(stabs, kind, s.l, Mid(s));
      Turn(stabs, kind, s) ==
      if m < s.l then State(Mid(s) + 1, s.r, s.addr, s.any, s.left, s.right)
      else if stabs[m].value < s.addr then State(Mid(s) + 1, s.r, s.addr, true, m, s.right)
      else if stabs[m].value > s.addr then State(s.l, m - 1, s.addr, true, s.left, m - 1)
      else State(m, s.r, (s.addr + 1) % ADDR_LIMIT, true, m, s.right)
  {
  }

  lemma LoopEnds(stabs: seq<Stab>, kind: int, s: State)
    requires InRange(stabs, s) && s.l > s.r
    ensures Loop(stabs, kind, s) == s
  {
  }

  method StabBinsearch(stabs: seq<Stab>, regionLeft: int, regionRight: int, kind: int, address: nat)
      returns (left: int, right: int)
    requires 0 <= regionLeft && regionRight < |stabs| < 0x4000_0000 && address < ADDR_LIMIT
    ensures (left, right) == Search(stabs, kind, regionLeft, regionRight, address)
  {
    hide Measure, Turn, Loop;
    left, right := regionLeft, regionRight;
    var l, r, anyMatches := left, right, false;
    var addr: nat := address;
    ghost var start := State(l, r, addr, false, left, right);
    while l <= r
      invariant InRange(stabs, State(l, r, addr, anyMatches, left, right))
      invariant Loop(stabs, kind, start) == Loop(stabs, kind, State(l, r, addr, anyMatches, left, right))
      decreases Measure(stabs, kind, State(l, r, addr, anyMatches, left, right))
    {
      ghost var s := State(l, r, addr, anyMatches, left, right);
      TurnDecreases(stabs, kind, s);
      TurnIs(stabs, kind, s);
      var trueM := (l + r) / 2;
      var m := trueM;
      while m >= l && stabs[m].kind != kind
        invariant l - 1 <= m <= trueM
        invariant LastMatch(stabs, kind, l, trueM) == LastMatch(stabs, kind, l, m)
      {
        m := m - 1;
      }
      if m < l {
        l := trueM + 1;
        continue;
      }
      anyMatches := true;
      if stabs[m].value < addr {
        left := m;
        l := trueM + 1;
      } else if stabs[m].value > addr {
        right := m - 1;
        r := m - 1;
      } else {
        left := m;
        l := m;
        addr := (addr + 1) % ADDR_LIMIT;
      }
    }
    LoopEnds(stabs, kind, State(l, r, addr, anyMatches, left, right));
    if !anyMatches {
      right := left - 1;
    } else {
      l := right;
      while l > left && stabs[l].kind != kind
        invariant l <= right
        invariant Scan(stabs, kind, left, right) == Scan(stabs, kind, left, l)
      {
        l := l - 1;
      }
      left := l;
    }
  }

  // ---- What the search finds ----

  ghost predicate Has(stabs: seq<Stab>, kind: int, lo: int, hi: int, value: int) {
    exists i :: Match(stabs, kind, lo, hi, i) && stabs[i].value == value
  }

  /** An entry that starts at or below `addr`: the candidates for the one that contains it. */
  predicate AtOrBelow(stabs: seq<Stab>, kind: int, lo: int, hi: int, addr: int, i: int) {
    Match(stabs, kind, lo, hi, i) && stabs[i].value <= addr
  }

  /** The right answer.  With an entry at or below `addr`: the last such entry, and the index just
      before the next entry.  With no entry at all: an empty region.  With entries that are all
      above `addr`: nothing before the first of them. */
  ghost predicate Exact(stabs: seq<Stab>, kind: int, lo: int, hi: int, addr: int, left: int, right: int) {
    if forall i :: !Match(stabs, kind, lo, hi, i) then left == lo && right == lo - 1
    else
      && right <= hi && (right < hi ==> Match(stabs, kind, lo, hi, right + 1))
      && (forall i :: Match(stabs, kind, lo, hi, i) ==> (i <= right <==> stabs[i].value <= addr))
      && (if exists i :: AtOrBelow(stabs, kind, lo, hi, addr, i)
          then
            && AtOrBelow(stabs, kind, lo, hi, addr, left)
            && forall i :: AtOrBelow(stabs, kind, lo, hi, addr, i) ==> i <= left
          else left == if right > lo then lo else right)
  }

  /** The next probe lands on an entry whose value is the address sought. */
  predicate Hits(stabs: seq<Stab>, kind: int, s: State)
    requires InRange(stabs, s)
  {
    s.l <= s.r && var m := Probe(stabs, kind, s); m >= s.l && stabs[m].value == s.addr
  }

  /** The search up to its next exact hit, or to its end: plain binary search. */
  function Seek(stabs: seq<Stab>, kind: int, s: State): (t: State)
    requires InRange(stabs, s)
    ensures InRange(stabs, t) && t.addr == s.addr && (t.l > t.r || Hits(stabs, kind, t))
    decreases Measure(stabs, kind, s)
  {
    if s.l > s.r || Hits(stabs, kind, s) then s
    else
      TurnDecreases(stabs, kind, s);
      Seek(stabs, kind, Turn(stabs, kind, s))
  }

  lemma {:induction false} LoopSeeks(stabs: seq<Stab>, kind: int, s: State)
    requires InRange(stabs, s)
    ensures Loop(stabs, kind, s) == Loop(stabs, kind, Seek(stabs, kind, s))
    decreases Measure(stabs, kind, s)
  {
    if !(s.l > s.r || Hits(stabs, kind, s)) {
      TurnDecreases(stabs, kind, s);
      LoopSeeks(stabs, kind, Turn(stabs, kind, s));
    }
  }

  /** No entry before `l` reaches the address sought, none after `r` is at or below `base`. */
  ghost predicate Bracket(stabs: seq<Stab>, kind: int, lo: int, hi: int, base: int, s: State) {
    && (forall i :: Match(stabs, kind, lo, hi, i) && i < s.l ==> stabs[i].value < s.addr)
    && (forall i :: Match(stabs, kind, lo, hi, i) && i > s.r ==> stabs[i].value > base)
  }

  /** What the two region pointers and any_matches hold meanwhile. */
  ghost predicate Pointers(stabs: seq<Stab>, kind: int, lo: int, hi: int, s: State) {
    && s.right == s.r <= hi
    && (s.r < hi ==> Match(stabs, kind, lo, hi, s.r + 1))
    && (s.left == lo || (Match(stabs, kind, lo, hi, s.left) && stabs[s.left].value < s.addr))
    && (if s.any then exists i :: Match(stabs, kind, lo, hi, i)
        else s.left == lo && s.r == hi && forall i :: Match(stabs, kind, lo, hi, i) ==> i >= s.l)
  }

  ghost predicate Kept(stabs: seq<Stab>, kind: int, lo: int, hi: int, base: int, s: State) {
    InRange(stabs, s) && lo <= s.l && base <= s.addr && Bracket(stabs, kind, lo, hi, base, s)
      && Pointers(stabs, kind, lo, hi, s)
  }

  lemma TurnBrackets(stabs: seq<Stab>, kind: int, lo: int, hi: int, base: int, s: State)
    requires Sorted(stabs, kind, lo, hi) && s.l <= s.r && Kept(stabs, kind, lo, hi, base, s)
    requires Hits(stabs, kind, s) ==> s.addr + 1 < ADDR_LIMIT
    ensures Bracket(stabs, kind, lo, hi, base, Turn(stabs, kind, s))
  {
    var m := Probe(stabs, kind, s);
    if m >= s.l {
      assert Match(stabs, kind, lo, hi, m);
    }
  }

  lemma TurnPoints(stabs: seq<Stab>, kind: int, lo: int, hi: int, base: int, s: State)
    requires Sorted(stabs, kind, lo, hi) && s.l <= s.r && Kept(stabs, kind, lo, hi, base, s)
    requires Hits(stabs, kind, s) ==> s.addr + 1 < ADDR_LIMIT
    ensures Pointers(stabs, kind, lo, hi, Turn(stabs, kind, s))
  {
    var m := Probe(stabs, kind, s);
    if m >= s.l {
      assert Match(stabs, kind, lo, hi, m);
    }
  }

  lemma TurnKeeps(stabs: seq<Stab>, kind: int, lo: int, hi: int, base: int, s: State)
    requires Sorted(stabs, kind, lo, hi) && s.l <= s.r && Kept(stabs, kind, lo, hi, base, s)
    requires Hits(stabs, kind, s) ==> s.addr + 1 < ADDR_LIMIT
    ensures Kept(stabs, kind, lo, hi, base, Turn(stabs, kind, s))
  {
    hide Bracket, Pointers, Sorted;
    TurnBrackets(stabs, kind, lo, hi, base, s);
    TurnPoints(stabs, kind, lo, hi, base, s);
  }

  lemma {:induction false} SeekKeeps(stabs: seq<Stab>, kind: int, lo: int, hi: int, base: int, s: State)
    requires Sorted(stabs, kind, lo, hi) && Kept(stabs, kind, lo, hi, base, s)
    ensures Kept(stabs, kind, lo, hi, base, Seek(stabs, kind, s))
    decreases Measure(stabs, kind, s)
  {
    hide Bracket, Pointers, Sorted;
    if !(s.l > s.r || Hits(stabs, kind, s)) {
      TurnKeeps(stabs, kind, lo, hi, base, s);
      TurnDecreases(stabs, kind, s);
      SeekKeeps(stabs, kind, lo, hi, base, Turn(stabs, kind, s));
    }
  }

  /** Plain binary search is complete: between its ends it misses no entry at the address sought. */
  lemma SeekFinds(stabs: seq<Stab>, kind: int, lo: int, hi: int, base: int, s: State, i: int)
    requires Sorted(stabs, kind, lo, hi) && Kept(stabs, kind, lo, hi, base, s)
    requires s.l <= i <= s.r && Match(stabs, kind, lo, hi, i) && stabs[i].value == s.addr
    ensures Hits(stabs, kind, Seek(stabs, kind, s))
  {
    SeekAround(stabs, kind, lo, hi, s, i);
  }

  lemma {:induction false} SeekAround(stabs: seq<Stab>, kind: int, lo: int, hi: int, s: State, i: int)
    requires Sorted(stabs, kind, lo, hi) && InRange(stabs, s) && lo <= s.l && s.r <= hi
    requires s.l <= i <= s.r && Match(stabs, kind, lo, hi, i) && stabs[i].value == s.addr
    ensures var t := Seek(stabs, kind, s); t.l <= i <= t.r
    decreases Measure(stabs, kind, s)
  {
    if !Hits(stabs, kind, s) {
      var m := Probe(stabs, kind, s);
      if m >= s.l {
        assert Match(stabs, kind, lo, hi, m);
      }
      TurnDecreases(stabs, kind, s);
      SeekAround(stabs, kind, lo, hi, Turn(stabs, kind, s), i);
    }
  }

  /** What is left when the interval is empty is the right answer, as long as `addr` grew by one at most. */
  lemma EndIsExact(stabs: seq<Stab>, kind: int, lo: int, hi: int, base: int, s: State)
    requires lo >= 0 && hi < |stabs| && Sorted(stabs, kind, lo, hi)
    requires Kept(stabs, kind, lo, hi, base, s) && s.l > s.r && s.addr <= base + 1
    ensures !s.any ==> Exact(stabs, kind, lo, hi, base, s.left, s.left - 1)
    ensures s.any ==> Exact(stabs, kind, lo, hi, base, Scan(stabs, kind, s.left, s.right), s.right)
  {
    if s.any {
      hide Sorted, Scan;
      ScanStops(stabs, kind, s.left, s.right);
      EndLeft(stabs, kind, lo, hi, base, s, Scan(stabs, kind, s.left, s.right));
    }
  }

  lemma EndLeft(stabs: seq<Stab>, kind: int, lo: int, hi: int, base: int, s: State, r: int)
    requires lo >= 0 && hi < |stabs|
    requires Kept(stabs, kind, lo, hi, base, s) && s.l > s.r && s.addr <= base + 1 && s.any
    requires if s.right > s.left then s.left <= r <= s.right else r == s.right
    requires r > s.left ==> stabs[r].kind == kind
    requires forall i :: 0 <= i && r < i <= s.right ==> stabs[i].kind != kind
    ensures Exact(stabs, kind, lo, hi, base, r, s.right)
  {
    assert forall i :: AtOrBelow(stabs, kind, lo, hi, base, i) ==> i <= r;
    if s.left != lo {
      assert AtOrBelow(stabs, kind, lo, hi, base, s.left);
      assert AtOrBelow(stabs, kind, lo, hi, base, r);
    } else if s.right > lo && r != lo {
      assert AtOrBelow(stabs, kind, lo, hi, base, r);
    }
  }

  lemma {:induction false} ScanStops(stabs: seq<Stab>, kind: int, left: int, l: int)
    requires l < |stabs| && 0 <= left
    ensures var r := Scan(stabs, kind, left, l); (if l > left then left <= r <= l else r == l)
    ensures var r := Scan(stabs, kind, left, l); r > left ==> stabs[r].kind == kind
    ensures var r := Scan(stabs, kind, left, l); forall i :: 0 <= i && r < i <= l ==> stabs[i].kind != kind
    decreases l - left
  {
    if l > left && stabs[l].kind != kind {
      ScanStops(stabs, kind, left, l - 1);
    }
  }

  function Start(lo: int, hi: int, addr: nat): State {
    State(lo, hi, addr, false, lo, hi)
  }

  /** The plain search lands on an entry at exactly `addr`, and an entry at addr + 1 is still
      between that entry and the right end. */
  ghost predicate Overtaken(stabs: seq<Stab>, kind: int, lo: int, hi: int, addr: nat)
    requires 0 <= lo && hi < |stabs| && addr < ADDR_LIMIT
  {
    var s := Seek(stabs, kind, Start(lo, hi, addr));
    Hits(stabs, kind, s) && Has(stabs, kind, Probe(stabs, kind, s), s.r, addr + 1)
  }

  lemma StartKept(stabs: seq<Stab>, kind: int, lo: int, hi: int, addr: nat)
    requires 0 <= lo && hi < |stabs| && addr < ADDR_LIMIT
    ensures Kept(stabs, kind, lo, hi, addr, Start(lo, hi, addr))
  {
  }

  /** Once the search has hit an entry above the address it was asked for, it cannot come back below it. */
  ghost predicate Past(stabs: seq<Stab>, kind: int, lo: int, hi: int, w: int, s: State) {
    && InRange(stabs, s) && lo <= s.l && s.right == s.r <= hi && s.any
    && Match(stabs, kind, lo, hi, w) && w <= s.r && (stabs[w].value < s.addr || w < s.l)
  }

  lemma {:induction false} LoopStaysPast(stabs: seq<Stab>, kind: int, lo: int, hi: int, w: int, s: State)
    requires Sorted(stabs, kind, lo, hi) && Past(stabs, kind, lo, hi, w, s) && stabs[w].value + 1 < ADDR_LIMIT
    ensures Past(stabs, kind, lo, hi, w, Loop(stabs, kind, s))
    decreases Measure(stabs, kind, s)
  {
    if s.l <= s.r {
      var m := Probe(stabs, kind, s);
      if m >= s.l {
        assert Match(stabs, kind, lo, hi, m);
      }
      TurnDecreases(stabs, kind, s);
      LoopStaysPast(stabs, kind, lo, hi, w, Turn(stabs, kind, s));
    }
  }

  /** The state after the exact hit at `s`. */
  lemma HitKeeps(stabs: seq<Stab>, kind: int, lo: int, hi: int, base: int, s: State)
    requires Sorted(stabs, kind, lo, hi) && s.addr + 1 < ADDR_LIMIT
    requires Kept(stabs, kind, lo, hi, base, s) && Hits(stabs, kind, s)
    ensures var t := Turn(stabs, kind, s); var m := Probe(stabs, kind, s);
            Kept(stabs, kind, lo, hi, base, t) && t.addr == s.addr + 1 && t.l == m && t.r == s.r
              && Match(stabs, kind, lo, hi, m) && t.any
  {
    hide Bracket, Sorted, Loop, Seek;
    assert Match(stabs, kind, lo, hi, Probe(stabs, kind, s)) by {
      assert s.r <= hi by {
        assert Pointers(stabs, kind, lo, hi, s);
      }
    }
    TurnKeeps(stabs, kind, lo, hi, base, s);
  }

  lemma NoHitIsExact(stabs: seq<Stab>, kind: int, lo: int, hi: int, addr: nat)
    requires 0 <= lo && hi < |stabs| && addr < ADDR_LIMIT && Sorted(stabs, kind, lo, hi)
    requires !Hits(stabs, kind, Seek(stabs, kind, Start(lo, hi, addr)))
    ensures var r := Search(stabs, kind, lo, hi, addr); Exact(stabs, kind, lo, hi, addr, r.0, r.1)
  {
    hide Kept, Sorted, Exact, Scan, Turn, Probe;
    StartKept(stabs, kind, lo, hi, addr);
    SeekKeeps(stabs, kind, lo, hi, addr, Start(lo, hi, addr));
    LoopSeeks(stabs, kind, Start(lo, hi, addr));
    EndIsExact(stabs, kind, lo, hi, addr, Seek(stabs, kind, Start(lo, hi, addr)));
  }

  lemma NotOvertakenIsExact(stabs: seq<Stab>, kind: int, lo: int, hi: int, addr: nat)
    requires 0 <= lo && hi < |stabs| && addr + 1 < ADDR_LIMIT && Sorted(stabs, kind, lo, hi)
    requires !Overtaken(stabs, kind, lo, hi, addr)
    ensures var r := Search(stabs, kind, lo, hi, addr); Exact(stabs, kind, lo, hi, addr, r.0, r.1)
  {
    hide Kept, Sorted, Exact, Scan, Turn, Probe;
    var s := Seek(stabs, kind, Start(lo, hi, addr));
    if !Hits(stabs, kind, s) {
      NoHitIsExact(stabs, kind, lo, hi, addr);
    } else {
      StartKept(stabs, kind, lo, hi, addr);
      SeekKeeps(stabs, kind, lo, hi, addr, Start(lo, hi, addr));
      LoopSeeks(stabs, kind, Start(lo, hi, addr));
      var t := Turn(stabs, kind, s);
      HitKeeps(stabs, kind, lo, hi, addr, s);
      var u := Seek(stabs, kind, t);
      SeekKeeps(stabs, kind, lo, hi, addr, t);
      LoopSeeks(stabs, kind, t);
      TurnIs(stabs, kind, s);
      if Hits(stabs, kind, u) {
        HitBetween(stabs, kind, lo, hi, addr, t);
        assert false;
      }
      EndIsExact(stabs, kind, lo, hi, addr, u);
    }
  }

  /** Plain binary search is sound: what it lands on lies between the ends it started from. */
  lemma {:induction false} HitBetween(stabs: seq<Stab>, kind: int, lo: int, hi: int, base: int, s: State)
    requires Sorted(stabs, kind, lo, hi) && Kept(stabs, kind, lo, hi, base, s)
    requires Hits(stabs, kind, Seek(stabs, kind, s))
    ensures Has(stabs, kind, s.l, s.r, s.addr)
    decreases Measure(stabs, kind, s)
  {
    hide Sorted, Bracket, Pointers, Loop, Measure;
    if Hits(stabs, kind, s) {
      assert Match(stabs, kind, s.l, s.r, Probe(stabs, kind, s));
    } else {
      var t := Turn(stabs, kind, s);
      TurnKeeps(stabs, kind, lo, hi, base, s);
      TurnDecreases(stabs, kind, s);
      HitBetween(stabs, kind, lo, hi, base, t);
      var i :| Match(stabs, kind, t.l, t.r, i) && stabs[i].value == t.addr;
      assert Match(stabs, kind, s.l, s.r, i);
    }
  }

  lemma PointersRight(stabs: seq<Stab>, kind: int, lo: int, hi: int, s: State)
    requires Pointers(stabs, kind, lo, hi, s)
    ensures s.right == s.r <= hi
  {
  }

  lemma PastIsWrong(stabs: seq<Stab>, kind: int, lo: int, hi: int, addr: nat, w: int, s: State, left: int)
    requires Past(stabs, kind, lo, hi, w, s) && stabs[w].value == addr + 1
    ensures !Exact(stabs, kind, lo, hi, addr, left, s.right)
  {
  }

  /** Overtaken, the search hits an entry at addr + 1. */
  function SecondHit(stabs: seq<Stab>, kind: int, lo: int, hi: int, addr: nat): (u: State)
    requires 0 <= lo && hi < |stabs| && addr < ADDR_LIMIT && Hits(stabs, kind, Seek(stabs, kind, Start(lo, hi, addr)))
    ensures InRange(stabs, u)
  {
    Seek(stabs, kind, Turn(stabs, kind, Seek(stabs, kind, Start(lo, hi, addr))))
  }

  lemma SecondHitKept(stabs: seq<Stab>, kind: int, lo: int, hi: int, addr: nat)
    requires 0 <= lo && hi < |stabs| && addr + 1 < ADDR_LIMIT && Sorted(stabs, kind, lo, hi)
    requires Overtaken(stabs, kind, lo, hi, addr)
    ensures var u := SecondHit(stabs, kind, lo, hi, addr);
            && Kept(stabs, kind, lo, hi, addr, u) && Hits(stabs, kind, u) && u.addr == addr + 1
            && Loop(stabs, kind, Start(lo, hi, addr)) == Loop(stabs, kind, u)
  {
    hide Sorted, Turn, Bracket, Pointers, Measure, Loop, Seek;
    var s := Seek(stabs, kind, Start(lo, hi, addr));
    StartKept(stabs, kind, lo, hi, addr);
    SeekKeeps(stabs, kind, lo, hi, addr, Start(lo, hi, addr));
    LoopSeeks(stabs, kind, Start(lo, hi, addr));
    var t := Turn(stabs, kind, s);
    HitKeeps(stabs, kind, lo, hi, addr, s);
    TurnIs(stabs, kind, s);
    PointersRight(stabs, kind, lo, hi, t);
    var i :| Match(stabs, kind, t.l, t.r, i) && stabs[i].value == addr + 1;
    SeekFinds(stabs, kind, lo, hi, addr, t, i);
    SeekKeeps(stabs, kind, lo, hi, addr, t);
    LoopSeeks(stabs, kind, t);
  }

  /** Below the last two addresses, an overtaken search never comes back, even where the climb
      from entry to entry wraps. */
  lemma OvertakenIsWrong(stabs: seq<Stab>, kind: int, lo: int, hi: int, addr: nat)
    requires 0 <= lo && hi < |stabs| && addr + 2 < ADDR_LIMIT && Sorted(stabs, kind, lo, hi)
    requires Overtaken(stabs, kind, lo, hi, addr)
    ensures var r := Search(stabs, kind, lo, hi, addr); !Exact(stabs, kind, lo, hi, addr, r.0, r.1)
  {
    hide Sorted, Scan, Turn, Bracket, Pointers, Measure, Exact, Loop, SecondHit;
    SecondHitKept(stabs, kind, lo, hi, addr);
    var u := SecondHit(stabs, kind, lo, hi, addr);
    HitKeeps(stabs, kind, lo, hi, addr, u);
    TurnIs(stabs, kind, u);
    var w := Probe(stabs, kind, u);
    PointersRight(stabs, kind, lo, hi, Turn(stabs, kind, u));
    LoopStaysPast(stabs, kind, lo, hi, w, Turn(stabs, kind, u));
    var f := Loop(stabs, kind, u);
    PastIsWrong(stabs, kind, lo, hi, addr, w, f, Scan(stabs, kind, f.left, f.right));
  }

  /** Once `addr` has wrapped to 0, every probe lies above it and the interval shrinks to nothing before `l`. */
  lemma {:induction false} WrappedShrinks(stabs: seq<Stab>, kind: int, s: State)
    requires InRange(stabs, s) && s.addr == 0 && s.any && s.left == s.l <= s.r + 1 && s.right == s.r
    requires s.l < |stabs| && stabs[s.l].kind == kind
    requires forall i :: Match(stabs, kind, s.l, s.r, i) ==> stabs[i].value > 0
    ensures var t := Loop(stabs, kind, s); t.any && t.left == s.l && t.right == s.l - 1
    decreases Measure(stabs, kind, s)
  {
    if s.l <= s.r {
      assert Match(stabs, kind, s.l, s.r, Probe(stabs, kind, s));
      TurnDecreases(stabs, kind, s);
      WrappedShrinks(stabs, kind, Turn(stabs, kind, s));
    }
  }

  /** An exact hit on an entry at the last address: the search ends just before it. */
  lemma LastHit(stabs: seq<Stab>, kind: int, lo: int, hi: int, base: int, s: State)
    requires Sorted(stabs, kind, lo, hi) && Kept(stabs, kind, lo, hi, base, s)
    requires Hits(stabs, kind, s) && s.addr + 1 == ADDR_LIMIT
    ensures var t := Loop(stabs, kind, s); var m := Probe(stabs, kind, s);
            t.any && t.right == m - 1 && Scan(stabs, kind, t.left, t.right) == m - 1
  {
    hide Loop, Measure;
    var m := Probe(stabs, kind, s);
    assert Match(stabs, kind, lo, hi, m);
    forall i | Match(stabs, kind, m, s.r, i) ensures stabs[i].value > 0 {
      assert Match(stabs, kind, lo, hi, i);
    }
    TurnIs(stabs, kind, s);
    WrappedShrinks(stabs, kind, Turn(stabs, kind, s));
  }

  /** Ending just before entry `m` at the last address is right exactly for the address before it,
      with the entry sought next to `m`. */
  lemma BeforeLast(stabs: seq<Stab>, kind: int, lo: int, hi: int, addr: nat, m: int)
    requires 0 <= lo && hi < |stabs| && Sorted(stabs, kind, lo, hi) && ADDR_LIMIT - 2 <= addr < ADDR_LIMIT
    requires Match(stabs, kind, lo, hi, m) && stabs[m].value == ADDR_LIMIT - 1
    requires Has(stabs, kind, lo, hi, addr)
    ensures Exact(stabs, kind, lo, hi, addr, m - 1, m - 1) <==>
            addr + 2 == ADDR_LIMIT && AtOrBelow(stabs, kind, lo, hi, addr, m - 1)
  {
    var i :| Match(stabs, kind, lo, hi, i) && stabs[i].value == addr;
    assert AtOrBelow(stabs, kind, lo, hi, addr, i);
  }

  lemma HitIsEntry(stabs: seq<Stab>, kind: int, lo: int, hi: int, base: int, s: State)
    requires Kept(stabs, kind, lo, hi, base, s) && Hits(stabs, kind, s)
    ensures Match(stabs, kind, lo, hi, Probe(stabs, kind, s)) && Has(stabs, kind, lo, hi, s.addr)
  {
    assert Match(stabs, kind, lo, hi, Probe(stabs, kind, s));
  }

  /** What sends the search astray: an exact hit that is overtaken by an entry at the next address.
      At the last address the climb wraps, so that every exact hit does; and one address before,
      the search ends right before the entry that overtook it, which is right if the entry sought is there. */
  ghost predicate Misled(stabs: seq<Stab>, kind: int, lo: int, hi: int, addr: nat)
    requires 0 <= lo && hi < |stabs| && addr < ADDR_LIMIT
  {
    if addr + 1 == ADDR_LIMIT then Hits(stabs, kind, Seek(stabs, kind, Start(lo, hi, addr)))
    else
      && Overtaken(stabs, kind, lo, hi, addr)
      && (addr + 2 == ADDR_LIMIT ==>
            var u := SecondHit(stabs, kind, lo, hi, addr);
            u.l <= u.r && !AtOrBelow(stabs, kind, lo, hi, addr, Probe(stabs, kind, u) - 1))
  }

  lemma LastIsMisled(stabs: seq<Stab>, kind: int, lo: int, hi: int, addr: nat)
    requires 0 <= lo && hi < |stabs| && addr + 1 == ADDR_LIMIT && Sorted(stabs, kind, lo, hi)
    requires Misled(stabs, kind, lo, hi, addr)
    ensures var r := Search(stabs, kind, lo, hi, addr); !Exact(stabs, kind, lo, hi, addr, r.0, r.1)
  {
    hide Sorted, Turn, Probe, Bracket, Pointers, Measure, Exact, Loop, Seek, Scan, Has;
    var s := Seek(stabs, kind, Start(lo, hi, addr));
    StartKept(stabs, kind, lo, hi, addr);
    SeekKeeps(stabs, kind, lo, hi, addr, Start(lo, hi, addr));
    LoopSeeks(stabs, kind, Start(lo, hi, addr));
    HitIsEntry(stabs, kind, lo, hi, addr, s);
    LastHit(stabs, kind, lo, hi, addr, s);
    BeforeLast(stabs, kind, lo, hi, addr, Probe(stabs, kind, s));
  }

  lemma LastButOne(stabs: seq<Stab>, kind: int, lo: int, hi: int, addr: nat)
    requires 0 <= lo && hi < |stabs| && addr + 2 == ADDR_LIMIT && Sorted(stabs, kind, lo, hi)
    requires Overtaken(stabs, kind, lo, hi, addr)
    ensures var r := Search(stabs, kind, lo, hi, addr);
            Exact(stabs, kind, lo, hi, addr, r.0, r.1) <==> !Misled(stabs, kind, lo, hi, addr)
  {
    hide Sorted, Turn, Probe, Bracket, Pointers, Measure, Exact, Loop, Seek, Scan, SecondHit, Has;
    SecondHitKept(stabs, kind, lo, hi, addr);
    OvertakenIsAdjacent(stabs, kind, lo, hi, addr);
    var u := SecondHit(stabs, kind, lo, hi, addr);
    HitIsEntry(stabs, kind, lo, hi, addr, u);
    LastHit(stabs, kind, lo, hi, addr, u);
    BeforeLast(stabs, kind, lo, hi, addr, Probe(stabs, kind, u));
  }

  /** When the search is right, for every table and every address. */
  lemma ExactIff(stabs: seq<Stab>, kind: int, lo: int, hi: int, addr: nat)
    requires 0 <= lo && hi < |stabs| && addr < ADDR_LIMIT && Sorted(stabs, kind, lo, hi)
    ensures var r := Search(stabs, kind, lo, hi, addr);
            Exact(stabs, kind, lo, hi, addr, r.0, r.1) <==> !Misled(stabs, kind, lo, hi, addr)
  {
    hide Sorted, Exact, Search, Turn, Seek, Loop, Has;
    if addr + 1 == ADDR_LIMIT {
      if Misled(stabs, kind, lo, hi, addr) {
        LastIsMisled(stabs, kind, lo, hi, addr);
      } else {
        NoHitIsExact(stabs, kind, lo, hi, addr);
      }
    } else if !Overtaken(stabs, kind, lo, hi, addr) {
      NotOvertakenIsExact(stabs, kind, lo, hi, addr);
    } else if addr + 2 == ADDR_LIMIT {
      LastButOne(stabs, kind, lo, hi, addr);
    } else {
      OvertakenIsWrong(stabs, kind, lo, hi, addr);
    }
  }

  lemma OvertakenIsAdjacent(stabs: seq<Stab>, kind: int, lo: int, hi: int, addr: nat)
    requires 0 <= lo && hi < |stabs| && addr < ADDR_LIMIT && Sorted(stabs, kind, lo, hi)
    requires Overtaken(stabs, kind, lo, hi, addr)
    ensures Has(stabs, kind, lo, hi, addr) && Has(stabs, kind, lo, hi, addr + 1)
  {
    hide Turn, Bracket;
    var s := Seek(stabs, kind, Start(lo, hi, addr));
    StartKept(stabs, kind, lo, hi, addr);
    SeekKeeps(stabs, kind, lo, hi, addr, Start(lo, hi, addr));
    var i :| Match(stabs, kind, Probe(stabs, kind, s), s.r, i) && stabs[i].value == addr + 1;
    assert Match(stabs, kind, lo, hi, i);
    assert Match(stabs, kind, lo, hi, Probe(stabs, kind, s));
  }

  /** In particular it is right whenever no two wanted entries start at `addr` and just after it. */
  lemma ExactUnlessAdjacent(stabs: seq<Stab>, kind: int, lo: int, hi: int, addr: nat)
    requires 0 <= lo && hi < |stabs| && addr < ADDR_LIMIT && Sorted(stabs, kind, lo, hi)
    requires addr + 1 < ADDR_LIMIT || !Has(stabs, kind, lo, hi, addr)
    requires !(Has(stabs, kind, lo, hi, addr) && Has(stabs, kind, lo, hi, addr + 1))
    ensures var r := Search(stabs, kind, lo, hi, addr); Exact(stabs, kind, lo, hi, addr, r.0, r.1)
  {
    hide Has, Seek, Search, Sorted, Exact, Probe, Kept;
    var s := Seek(stabs, kind, Start(lo, hi, addr));
    if !Hits(stabs, kind, s) {
      NoHitIsExact(stabs, kind, lo, hi, addr);
    } else {
      StartKept(stabs, kind, lo, hi, addr);
      SeekKeeps(stabs, kind, lo, hi, addr, Start(lo, hi, addr));
      HitIsEntry(stabs, kind, lo, hi, addr, s);
      if Overtaken(stabs, kind, lo, hi, addr) {
        OvertakenIsAdjacent(stabs, kind, lo, hi, addr);
        assert false;
      }
      NotOvertakenIsExact(stabs, kind, lo, hi, addr);
    }
  }

  /** Under the same conditions an answer with left > right means that there is no entry of the kind
      at all, and not, as the comment on the search has it, that `addr` lies outside every region. */
  lemma EmptyMeansNone(stabs: seq<Stab>, kind: int, lo: int, hi: int, addr: nat)
    requires 0 <= lo && hi < |stabs| && addr < ADDR_LIMIT && Sorted(stabs, kind, lo, hi)
    requires addr + 1 < ADDR_LIMIT || !Has(stabs, kind, lo, hi, addr)
    requires !(Has(stabs, kind, lo, hi, addr) && Has(stabs, kind, lo, hi, addr + 1))
    ensures var r := Search(stabs, kind, lo, hi, addr); r.0 > r.1 <==> forall i :: !Match(stabs, kind, lo, hi, i)
  {
    hide Search, Sorted, Has;
    ExactUnlessAdjacent(stabs, kind, lo, hi, addr);
  }

  /** One entry, at 0x20: asked for 0x10, the search answers -1 and -1 instead of an empty region. */
  lemma AboveIsNotEmpty()
    ensures var stabs := [Stab(36, 0x20)];
      (forall i :: !AtOrBelow(stabs, 36, 0, 0, 0x10, i)) && Search(stabs, 36, 0, 0, 0x10) == (-1, -1)
  {
    var stabs := [Stab(36, 0x20)];
    hide Loop, Turn, Measure;
    assert LastMatch(stabs, 36, 0, 0) == 0;
    TurnIs(stabs, 36, Start(0, 0, 0x10));
    LoopEnds(stabs, 36, State(0, -1, 0x10, true, 0, -1));
  }

  /** Two functions at 0x10 and 0x11: asked for 0x10, the search answers with the second. */
  lemma AdjacentIsWrong()
    ensures var stabs := [Stab(36, 0x10), Stab(36, 0x11)];
      Sorted(stabs, 36, 0, 1) && Search(stabs, 36, 0, 1, 0x10) == (1, 1) && !Exact(stabs, 36, 0, 1, 0x10, 1, 1)
  {
    var stabs := [Stab(36, 0x10), Stab(36, 0x11)];
    var s0 := Start(0, 1, 0x10);
    var s1 := State(0, 1, 0x11, true, 0, 1);
    var s2 := State(1, 1, 0x11, true, 0, 1);
    var s3 := State(1, 1, 0x12, true, 1, 1);
    var s4 := State(2, 1, 0x12, true, 1, 1);
    hide Loop, Turn, Measure;
    TurnIs(stabs, 36, s0);
    assert LastMatch(stabs, 36, 0, 0) == 0;
    assert Turn(stabs, 36, s0) == s1;
    TurnIs(stabs, 36, s1);
    assert Turn(stabs, 36, s1) == s2;
    TurnIs(stabs, 36, s2);
    assert LastMatch(stabs, 36, 1, 1) == 1;
    assert Turn(stabs, 36, s2) == s3;
    TurnIs(stabs, 36, s3);
    assert Turn(stabs, 36, s3) == s4;
    LoopEnds(stabs, 36, s4);
    assert AtOrBelow(stabs, 36, 0, 1, 0x10, 0) && Match(stabs, 36, 0, 1, 1);
  }
}
