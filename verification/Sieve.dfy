/** user/primes.c: the concurrent prime sieve, one environment per prime, as a state machine whose
    steps are the IPC rendezvous and the local actions of its stages. */
module Sieve {

  /** Where primeproc is in stage k: `p` is its prime, `i` the value it last received. */
  datatype Phase =
    | Top                      // about to receive its prime
    | AwaitPrime               // blocked in ipc_recv for it
    | Fork(p: nat)             // has announced it, about to fork its right neighbour
    | Loop(p: nat)             // about to receive the next value
    | Await(p: nat)            // blocked in ipc_recv for it
    | Test(p: nat, i: nat)
    | Send(p: nat, i: nat)     // in ipc_send to the right neighbour

  /** `received` are all the values that the stage's calls of ipc_recv have returned. */
  datatype Stage = Stage(phase: Phase, received: seq<nat>)

  /** `next` is the value that umain sends next. */
  datatype Pipeline = Pipeline(next: nat, stages: seq<Stage>)

  datatype Action =
    | Generate                 // umain's ipc_send to the first stage succeeds
    | Receive(k: nat)          // stage k blocks in ipc_recv
    | ForkRight(k: nat)
    | Filter(k: nat)
    | Pass(k: nat)             // stage k's ipc_send to stage k + 1 succeeds

  predicate Divides(d: nat, n: nat) {
    d != 0 && n % d == 0
  }

  function Blocked(s: Stage): bool {
    s.phase.AwaitPrime? || s.phase.Await?
  }

  /** ipc_recv returns `v`. */
  function Deliver(s: Stage, v: nat): Stage
    requires Blocked(s)
  {
    Stage(if s.phase.AwaitPrime? then Fork(v) else Test(s.phase.p, v), s.received + [v])
  }

  ghost predicate Enabled(w: Pipeline, a: Action) {
    match a
    case Generate => w.stages != [] && Blocked(w.stages[0])
    case Receive(k) => k < |w.stages| && (w.stages[k].phase.Top? || w.stages[k].phase.Loop?)
    case ForkRight(k) => k < |w.stages| && w.stages[k].phase.Fork?
    case Filter(k) => k < |w.stages| && w.stages[k].phase.Test? && w.stages[k].phase.p != 0
    case Pass(k) => k + 1 < |w.stages| && w.stages[k].phase.Send? && Blocked(w.stages[k + 1])
  }

  function SetPhase(w: Pipeline, k: nat, phase: Phase): Pipeline
    requires k < |w.stages|
  {
    w.(stages := w.stages[k := w.stages[k].(phase := phase)])
  }

  ghost function Step(w: Pipeline, a: Action): Pipeline
    requires Enabled(w, a)
  {
    match a
    case Generate => Pipeline(w.next + 1, w.stages[0 := Deliver(w.stages[0], w.next)])
    case Receive(k) => SetPhase(w, k, if w.stages[k].phase.Top? then AwaitPrime else Await(w.stages[k].phase.p))
    case ForkRight(k) =>
      var forked := SetPhase(w, k, Loop(w.stages[k].phase.p));
      forked.(stages := forked.stages + [Stage(Top, [])])
    case Filter(k) =>
      var p, i := w.stages[k].phase.p, w.stages[k].phase.i;
      SetPhase(w, k, if !Divides(p, i) then Send(p, i) else Loop(p))
    case Pass(k) =>
      var p, i := w.stages[k].phase.p, w.stages[k].phase.i;
      Pipeline(w.next, w.stages[k := w.stages[k].(phase := Loop(p))][k + 1 := Deliver(w.stages[k + 1], i)])
  }

  /** After umain's fork: one stage, nothing sent. */
  const START := Pipeline(2, [Stage(Top, [])])

  ghost predicate IsRun(ws: seq<Pipeline>, actions: seq<Action>) {
    && |ws| == |actions| + 1 && ws[0] == START
    && forall i :: 0 <= i < |actions| ==> Enabled(ws[i], actions[i]) && ws[i + 1] == Step(ws[i], actions[i])
  }

  // ---- The invariant of the pipeline ----

  predicate HasPrime(s: Stage) {
    s.phase.Fork? || s.phase.Loop? || s.phase.Await? || s.phase.Test? || s.phase.Send?
  }

  /** The values that a stage has dealt with: all but the one in its hands. */
  function Handled(s: Stage): seq<nat> {
    if (s.phase.Test? || s.phase.Send?) && s.received != [] then s.received[..|s.received| - 1] else s.received
  }

  function Sift(vs: seq<nat>, p: nat): (r: seq<nat>) {
    if vs == [] then []
    else Sift(vs[..|vs| - 1], p) + if !Divides(p, vs[|vs| - 1]) then [vs[|vs| - 1]] else []
  }

  function UpTo(n: nat): seq<nat> {
    if n <= 2 then [] else UpTo(n - 1) + [n - 1]
  }

  ghost predicate StageOk(s: Stage, last: bool) {
    && (if HasPrime(s) then s.received != [] && s.phase.p == s.received[0] >= 2 else s.received == [])
    && (s.phase.Fork? ==> |s.received| == 1)
    && (s.phase.Test? || s.phase.Send? ==> |s.received| >= 2 && s.phase.i == s.received[|s.received| - 1])
    && (s.phase.Send? ==> !Divides(s.received[0], s.phase.i))
    && (s.phase.Top? || s.phase.AwaitPrime? || s.phase.Fork? <==> last)
    && (forall v :: v in s.received ==> v >= 2)
  }

  ghost predicate Inv(w: Pipeline) {
    && w.stages != [] && w.next >= 2
    && w.stages[0].received == UpTo(w.next)
    && (forall k :: 0 <= k < |w.stages| ==> StageOk(w.stages[k], k == |w.stages| - 1))
    && (forall k :: 0 <= k < |w.stages| - 1 ==> Linked(w, k))
  }

  /** What stage k + 1 has received is what stage k has dealt with and did not filter out. */
  ghost predicate Linked(w: Pipeline, k: nat)
    requires k + 1 < |w.stages|
  {
    && HasPrime(w.stages[k]) && w.stages[k].phase.p != 0
    && w.stages[k + 1].received == Sift(Handled(w.stages[k]), w.stages[k].phase.p)
  }

  lemma SiftOne(vs: seq<nat>, v: nat, p: nat)
    ensures Sift(vs + [v], p) == Sift(vs, p) + if !Divides(p, v) then [v] else []
  {
    hide Divides;
    assert (vs + [v])[..|vs|] == vs;
  }

  /** The values that stage k gets come from its left neighbour, or from umain. */
  lemma StageKeeps(w: Pipeline, a: Action, k: nat)
    requires Inv(w) && Enabled(w, a) && k < |Step(w, a).stages|
    ensures StageOk(Step(w, a).stages[k], k == |Step(w, a).stages| - 1)
  {
    hide Divides;
    if k < |w.stages| {
      assert StageOk(w.stages[k], k == |w.stages| - 1);
      if k > 0 && a == Pass(k - 1) {
        assert StageOk(w.stages[k - 1], false);
        assert w.stages[k - 1].phase.i in w.stages[k - 1].received;
      }
    }
  }

  lemma LinkKeeps(w: Pipeline, a: Action, k: nat)
    requires Inv(w) && Enabled(w, a) && k < |Step(w, a).stages| - 1
    ensures Linked(Step(w, a), k)
  {
    hide Divides, Sift;
    assert StageOk(w.stages[k], k == |w.stages| - 1);
    if a == ForkRight(k) {
      NothingSifted(w.stages[k].phase.p);
      assert w.stages[k].received == [w.stages[k].phase.p];
    } else {
      assert Linked(w, k);
      if a == Filter(k) || a == Pass(k) {
        OneSifted(w.stages[k]);
      } else {
        HandledSame(w, a, k);
      }
    }
  }

  /** A stage's own prime goes no further. */
  lemma NothingSifted(p: nat)
    requires p >= 2
    ensures Sift([p], p) == []
  {
    hide Divides;
    SelfDivides(p);
    SiftOne([], p, p);
    assert [] + [p] == [p];
  }

  /** Once the value in hand is dealt with, it is sifted with the others. */
  lemma OneSifted(s: Stage)
    requires StageOk(s, false) && (s.phase.Test? || s.phase.Send?)
    ensures Sift(s.received, s.phase.p) ==
            Sift(Handled(s), s.phase.p) + if !Divides(s.phase.p, s.phase.i) then [s.phase.i] else []
  {
    hide Divides;
    SiftOne(Handled(s), s.phase.i, s.phase.p);
    assert Handled(s) + [s.phase.i] == s.received;
  }

  lemma HandledSame(w: Pipeline, a: Action, k: nat)
    requires Inv(w) && Enabled(w, a) && k + 1 < |w.stages| && a != Filter(k) && a != Pass(k)
    ensures var s, t := w.stages[k], Step(w, a).stages;
            HasPrime(t[k]) && t[k].phase.p == s.phase.p && Handled(t[k]) == Handled(s)
              && t[k + 1].received == w.stages[k + 1].received
  {
    hide Divides, Sift, UpTo, Handled;
    assert Linked(w, k) && StageOk(w.stages[k], false) && StageOk(w.stages[k + 1], k + 1 == |w.stages| - 1);
    var s, s' := w.stages[k], Step(w, a).stages[k];
    if s' != s {
      HandledOnly(s, s');
    }
  }

  /** A stage that has its prime deals with a value only when it filters it out or passes it on. */
  lemma HandledOnly(s: Stage, s': Stage)
    requires StageOk(s, false) && HasPrime(s)
    requires (s.phase.Loop? && s' == s.(phase := Await(s.phase.p)))
             || (s.phase.Await? && exists v :: s' == Deliver(s, v))
    ensures HasPrime(s') && s'.phase.p == s.phase.p && Handled(s') == Handled(s)
  {
    hide Divides;
    if s.phase.Await? {
      var v :| s' == Deliver(s, v);
      assert s'.received[..|s'.received| - 1] == s.received;
    }
  }

  lemma StepKeeps(w: Pipeline, a: Action)
    requires Inv(w) && Enabled(w, a)
    ensures Inv(Step(w, a))
  {
    hide Divides;
    var t := Step(w, a);
    forall k | 0 <= k < |t.stages| - 1 ensures Linked(t, k) { LinkKeeps(w, a, k); }
    forall k | 0 <= k < |t.stages| ensures StageOk(t.stages[k], k == |t.stages| - 1) { StageKeeps(w, a, k); }
    assert StageOk(w.stages[0], 0 == |w.stages| - 1);
  }

  lemma {:induction false} RunKeeps(ws: seq<Pipeline>, actions: seq<Action>, n: nat)
    requires IsRun(ws, actions) && n < |ws|
    ensures Inv(ws[n])
    decreases n
  {
    hide Divides;
    if n > 0 {
      RunKeeps(ws, actions, n - 1);
      StepKeeps(ws[n - 1], actions[n - 1]);
      assert ws[n - 1 + 1] == Step(ws[n - 1], actions[n - 1]);
    }
  }

  // ---- What the stages receive, and what they announce ----

  /** The integers from 2 up to below `n` that no element of `ps` divides, in order. */
  function Survivors(ps: seq<nat>, n: nat): (r: seq<nat>)
  {
    if n <= 2 then [] else Survivors(ps, n - 1) + if Survives(ps, n - 1) then [n - 1] else []
  }

  predicate Survives(ps: seq<nat>, v: nat)
  {
    forall k :: 0 <= k < |ps| ==> !Divides(ps[k], v)
  }

  predicate IsPrime(n: nat) {
    n >= 2 && forall d :: 2 <= d < n ==> !Divides(d, n)
  }

  /** All primes below `n`, in order. */
  function Primes(n: nat): (r: seq<nat>)
    ensures forall q :: q in r ==> 2 <= q < n && IsPrime(q)
    ensures forall q :: 0 <= q < n && IsPrime(q) ==> q in r
  {
    if n <= 2 then [] else Primes(n - 1) + if IsPrime(n - 1) then [n - 1] else []
  }

  function PrimeOf(s: Stage): nat {
    if HasPrime(s) then s.phase.p else 0
  }

  /** The primes that stages 0 to k - 1 have announced. */
  function Announced(w: Pipeline, k: nat): (r: seq<nat>)
    requires k <= |w.stages|
    ensures |r| == k && forall m :: 0 <= m < k ==> r[m] == PrimeOf(w.stages[m])
  {
    if k == 0 then [] else Announced(w, k - 1) + [PrimeOf(w.stages[k - 1])]
  }

  /** Dropping the multiples of one more prime. */
  lemma {:induction false} SiftSurvivors(ps: seq<nat>, p: nat, n: nat)
    ensures Sift(Survivors(ps, n), p) == Survivors(ps + [p], n)
  {
    hide Divides;
    if n > 2 {
      SiftSurvivors(ps, p, n - 1);
      var vs := Survivors(ps, n - 1);
      OneMoreDivisor(ps, p, n - 1);
      if Survives(ps, n - 1) { SiftOne(vs, n - 1, p); } else { assert vs + [] == vs; }
    }
  }

  lemma OneMoreDivisor(ps: seq<nat>, p: nat, v: nat)
    ensures Survives(ps + [p], v) <==> Survives(ps, v) && !Divides(p, v)
  {
    hide Divides;
    assert forall k :: 0 <= k < |ps| ==> (ps + [p])[k] == ps[k];
    assert (ps + [p])[|ps|] == p;
  }

  /** A prefix of the survivors is the survivors below a smaller bound. */
  lemma {:induction false} SurvivorsPrefix(ps: seq<nat>, n: nat, len: nat) returns (n': nat)
    requires len <= |Survivors(ps, n)|
    ensures Survivors(ps, n)[..len] == Survivors(ps, n')
  {
    hide Divides;
    n' := n;
    if len < |Survivors(ps, n)| {
      n' := SurvivorsPrefix(ps, n - 1, len);
      assert Survivors(ps, n)[..len] == Survivors(ps, n - 1)[..len];
    }
  }

  /** The first survivor is the least. */
  lemma {:induction false} FirstSurvivor(ps: seq<nat>, n: nat)
    requires Survivors(ps, n) != []
    ensures var p := Survivors(ps, n)[0];
            2 <= p < n && Survives(ps, p) && forall v :: 2 <= v < p ==> !Survives(ps, v)
  {
    hide Divides;
    if Survivors(ps, n - 1) != [] {
      FirstSurvivor(ps, n - 1);
    } else {
      NoSurvivor(ps, n - 1);
    }
  }

  lemma {:induction false} NoSurvivor(ps: seq<nat>, n: nat)
    requires Survivors(ps, n) == []
    ensures forall v :: 2 <= v < n ==> !Survives(ps, v)
  {
    hide Divides;
    if n > 2 { NoSurvivor(ps, n - 1); }
  }

  lemma DividesThrough(q: nat, d: nat, n: nat)
    requires Divides(q, d) && Divides(d, n)
    ensures Divides(q, n)
  {
    var x, y := n / d, d / q;
    assert n == d * x && d == q * y;
    assert d * x == q * (y * x) by { Regroup(q, y, x); }
    MultipleOf(q, y * x);
  }

  lemma Regroup(q: nat, y: nat, x: nat)
    ensures (q * y) * x == q * (y * x)
  {
  }

  lemma {:induction false} MultipleOf(q: nat, k: nat)
    requires q >= 1
    ensures (q * k) % q == 0
  {
    if k > 0 {
      MultipleOf(q, k - 1);
      var m := q * (k - 1);
      assert q * k == m + q;
      AddDivisor(m, q);
    }
  }

  lemma AddDivisor(m: nat, q: nat)
    requires q >= 1
    ensures (m + q) % q == m % q
  {
    var x, r := m / q, m % q;
    assert m + q == q * (x + 1) + r;
    Remainder(m + q, q, x + 1, r);
  }

  lemma Remainder(a: nat, q: nat, x: nat, r: nat)
    requires a == q * x + r && r < q
    ensures a % q == r
  {
    var y := a / q;
    assert a == q * y + a % q;
    Monotone(q, x + 1, y);
    Monotone(q, y + 1, x);
  }

  lemma Monotone(q: nat, a: nat, b: nat)
    ensures a <= b ==> q * a <= q * b
  {
  }

  /** The least number that no prime up to `m` divides is the next prime. */
  lemma NextPrime(m: nat, p: nat)
    requires p >= 2 && Survives(Primes(m), p) && forall v :: 2 <= v < p ==> !Survives(Primes(m), v)
    ensures Primes(p + 1) == Primes(m) + [p]
  {
    var ps := Primes(m);
    hide Divides;
    forall d | 2 <= d < p ensures !Divides(d, p) {
      assert !Survives(ps, d);
      var k :| 0 <= k < |ps| && Divides(ps[k], d);
      if Divides(d, p) { DividesThrough(ps[k], d, p); }
    }
    if p < m {
      assert IsPrime(p) && p in ps;
      var k :| 0 <= k < |ps| && ps[k] == p;
      SelfDivides(p);
    }
    NoPrimeBetween(m, p);
  }

  lemma SelfDivides(p: nat)
    requires p >= 2
    ensures Divides(p, p)
  {
  }

  lemma {:induction false} NoPrimeBetween(m: nat, n: nat)
    requires m <= n && forall v :: 2 <= v < n ==> !Survives(Primes(m), v)
    ensures Primes(n) == Primes(m)
    decreases n
  {
    hide Divides, IsPrime, Survives;
    if m < n {
      NoPrimeBetween(m, n - 1);
      if n > 2 {
        Composite(m, n - 1);
        assert Primes(n - 1) + [] == Primes(n - 1);
      }
    }
  }

  lemma Composite(m: nat, v: nat)
    requires m <= v && !Survives(Primes(m), v)
    ensures !IsPrime(v)
  {
    hide Divides;
    var ps := Primes(m);
    var k :| 0 <= k < |ps| && Divides(ps[k], v);
    assert ps[k] in ps;
  }

  /** At every point of every run, the values that stage k has received are the first of the
      increasing integers from 2 on that none of the first k primes divides; and the primes
      announced by stages 0 to k are exactly the primes up to the last of them, in order. */
  lemma {:induction false} StagesSieve(w: Pipeline, k: nat) returns (n: nat)
    requires Inv(w) && k < |w.stages|
    ensures forall m :: 0 <= m < k ==> HasPrime(w.stages[m])
    ensures w.stages[k].received == Survivors(Announced(w, k), n)
    ensures k > 0 ==> Announced(w, k) == Primes(Announced(w, k)[k - 1] + 1)
    ensures HasPrime(w.stages[k]) ==> Announced(w, k + 1) == Primes(PrimeOf(w.stages[k]) + 1)
    decreases k
  {
    hide Divides, IsPrime, Survives, Enabled, Sift, Survivors, Primes, UpTo;
    if k == 0 {
      n := w.next;
      AllSurvive(n);
      NoPrimes();
    } else {
      var n0 := StagesSieve(w, k - 1);
      assert Linked(w, k - 1) && StageOk(w.stages[k - 1], false);
      var ps, p := Announced(w, k - 1), PrimeOf(w.stages[k - 1]);
      n := SurvivorsPrefix(ps, n0, |Handled(w.stages[k - 1])|);
      assert Handled(w.stages[k - 1]) == w.stages[k - 1].received[..|Handled(w.stages[k - 1])|];
      SiftSurvivors(ps, p, n);
    }
    if HasPrime(w.stages[k]) {
      assert StageOk(w.stages[k], k == |w.stages| - 1);
      AnnouncesNext(Announced(w, k), if k == 0 then 0 else Announced(w, k)[k - 1] + 1, n);
    }
  }

  lemma NoPrimes()
    ensures Primes(0) == []
  {
  }

  lemma AnnouncesNext(ps: seq<nat>, m: nat, n: nat)
    requires ps == Primes(m) && Survivors(ps, n) != []
    ensures ps + [Survivors(ps, n)[0]] == Primes(Survivors(ps, n)[0] + 1)
  {
    hide Divides;
    FirstSurvivor(ps, n);
    NextPrime(m, Survivors(ps, n)[0]);
  }

  lemma {:induction false} AllSurvive(n: nat)
    ensures UpTo(n) == Survivors([], n)
  {
    hide Divides;
    if n > 2 { AllSurvive(n - 1); }
  }

  /** The sieve is right at every point of every run. */
  lemma SieveIsRight(ws: seq<Pipeline>, actions: seq<Action>, i: nat, k: nat) returns (n: nat)
    requires IsRun(ws, actions) && i < |ws| && k < |ws[i].stages|
    ensures forall m :: 0 <= m < k ==> HasPrime(ws[i].stages[m])
    ensures ws[i].stages[k].received == Survivors(Announced(ws[i], k), n)
    ensures HasPrime(ws[i].stages[k]) ==> Announced(ws[i], k + 1) == Primes(PrimeOf(ws[i].stages[k]) + 1)
  {
    hide Divides, Enabled;
    RunKeeps(ws, actions, i);
    n := StagesSieve(ws[i], k);
  }

  // ---- It never stops, and announces every prime ----

  /** How much a stage has done: each of its steps, and each value it is given, adds at least one. */
  function Done(s: Stage): (d: nat) {
    4 * |s.received| + match s.phase
                       case Top => 0
                       case AwaitPrime => 1
                       case Fork(_) => 1
                       case Test(_, _) => 1
                       case Send(_, _) => 2
                       case Loop(_) => 3
                       case Await(_) => 4
  }

  function Work(stages: seq<Stage>): nat {
    if stages == [] then 0 else Work(stages[..|stages| - 1]) + Done(stages[|stages| - 1])
  }

  lemma {:induction false} WorkSet(stages: seq<Stage>, k: nat, s: Stage)
    requires k < |stages|
    ensures Work(stages[k := s]) == Work(stages) - Done(stages[k]) + Done(s)
    decreases |stages|
  {
    hide Done;
    var rest, n := stages[..|stages| - 1], |stages| - 1;
    if k < n {
      WorkSet(rest, k, s);
      assert stages[k := s][..n] == rest[k := s];
    } else {
      assert stages[k := s][..n] == rest;
    }
  }

  lemma WorkGrows(w: Pipeline, a: Action)
    requires Enabled(w, a)
    ensures Work(Step(w, a).stages) > Work(w.stages)
  {
    hide Divides, Work;
    match a
    case Generate => WorkSet(w.stages, 0, Deliver(w.stages[0], w.next));
    case Receive(k) => WorkSet(w.stages, k, Step(w, a).stages[k]);
    case ForkRight(k) =>
      var forked := w.stages[k := w.stages[k].(phase := Loop(w.stages[k].phase.p))];
      WorkSet(w.stages, k, forked[k]);
      WorkOneMore(forked);
    case Filter(k) => WorkSet(w.stages, k, Step(w, a).stages[k]);
    case Pass(k) =>
      var sent := w.stages[k].(phase := Loop(w.stages[k].phase.p));
      WorkSet(w.stages, k, sent);
      WorkSet(w.stages[k := sent], k + 1, Deliver(w.stages[k + 1], w.stages[k].phase.i));
  }

  lemma WorkOneMore(stages: seq<Stage>)
    ensures Work(stages + [Stage(Top, [])]) >= Work(stages)
  {
    assert (stages + [Stage(Top, [])])[..|stages|] == stages;
  }

  /** No run has more steps than its stages have work done. */
  lemma {:induction false} StepsBounded(ws: seq<Pipeline>, actions: seq<Action>, n: nat)
    requires IsRun(ws, actions) && n <= |actions|
    ensures n <= Work(ws[n].stages)
  {
    hide Step, Enabled, Work;
    if n > 0 {
      StepsBounded(ws, actions, n - 1);
      WorkGrows(ws[n - 1], actions[n - 1]);
      assert ws[n - 1 + 1] == Step(ws[n - 1], actions[n - 1]);
    }
  }

  /** A stage gets no more values than its left neighbour. */
  lemma {:induction false} ReceivedShrinks(w: Pipeline, k: nat)
    requires Inv(w) && k < |w.stages|
    ensures |w.stages[k].received| <= w.next
  {
    hide Sift, UpTo, Divides;
    if k > 0 {
      ReceivedShrinks(w, k - 1);
      assert Linked(w, k - 1);
      SiftShrinks(Handled(w.stages[k - 1]), w.stages[k - 1].phase.p);
    } else {
      UpToIs(w.next);
    }
  }

  lemma {:induction false} SiftShrinks(vs: seq<nat>, p: nat)
    ensures |Sift(vs, p)| <= |vs|
  {
    hide Divides;
    if vs != [] { SiftShrinks(vs[..|vs| - 1], p); }
  }

  lemma {:induction false} UpToIs(n: nat)
    ensures |UpTo(n)| <= n && (n > 2 ==> n - 1 in UpTo(n))
  {
    if n > 2 { UpToIs(n - 1); }
  }

  lemma {:induction false} WorkBounded(w: Pipeline, k: nat)
    requires Inv(w) && k <= |w.stages|
    ensures Work(w.stages[..k]) <= 4 * (w.next + 1) * k
  {
    hide Inv;
    if k > 0 {
      WorkBounded(w, k - 1);
      ReceivedShrinks(w, k - 1);
      assert w.stages[..k][..k - 1] == w.stages[..k - 1];
      var x := 4 * (w.next + 1);
      assert x * (k - 1) + x == x * k;
    }
  }

  // ---- There are primes enough ----

  function Factorial(n: nat): (f: nat)
    ensures f >= 1
  {
    if n == 0 then 1 else n * Factorial(n - 1)
  }

  lemma {:induction false} DividesFactorial(d: nat, n: nat)
    requires 1 <= d <= n
    ensures Divides(d, Factorial(n))
  {
    if d == n {
      MultipleOf(d, Factorial(n - 1));
    } else {
      DividesFactorial(d, n - 1);
      var x := Factorial(n - 1) / d;
      assert Factorial(n - 1) == d * x;
      assert n * (d * x) == d * (n * x) by { Regroup(d, x, n); }
      MultipleOf(d, n * x);
    }
  }

  lemma {:induction false} PrimeDivisor(n: nat, d: nat) returns (q: nat)
    requires 2 <= d <= n && Divides(n, n) && forall k :: 2 <= k < d ==> !Divides(k, n)
    ensures IsPrime(q) && Divides(q, n)
    decreases n - d
  {
    if Divides(d, n) {
      q := d;
      forall k | 2 <= k < d ensures !Divides(k, d) {
        if Divides(k, d) { DividesThrough(k, d, n); }
      }
    } else {
      q := PrimeDivisor(n, d + 1);
    }
  }

  /** Euclid: there is no last prime. */
  lemma PrimeAbove(n: nat) returns (q: nat)
    ensures q > n && IsPrime(q)
  {
    hide IsPrime, Factorial;
    var f := Factorial(n) + 1;
    SelfDivides(f);
    q := PrimeDivisor(f, 2);
    if q <= n {
      assert q >= 2 by { AtLeastTwo(q); }
      DividesFactorial(q, n);
      NotNext(q, Factorial(n));
      assert false;
    }
  }

  lemma AtLeastTwo(q: nat)
    requires IsPrime(q)
    ensures q >= 2
  {
  }

  lemma NotNext(q: nat, f: nat)
    requires q >= 2 && Divides(q, f)
    ensures !Divides(q, f + 1)
  {
    var x := f / q;
    assert f + 1 == q * x + 1;
    Remainder(f + 1, q, x, 1);
  }

  ghost function PrimeAfter(n: nat): (q: nat)
    ensures q > n && IsPrime(q)
  {
    assert exists q: nat :: q > n && IsPrime(q) by { var q := PrimeAbove(n); }
    var q: nat :| q > n && IsPrime(q);
    q
  }

  /** A bound below which there are `n` primes. */
  ghost function Enough(n: nat): nat {
    if n == 0 then 0 else PrimeAfter(Enough(n - 1)) + 1
  }

  lemma {:induction false} EnoughIs(n: nat)
    ensures |Primes(Enough(n))| >= n
  {
    hide IsPrime, Primes, Divides;
    if n > 0 {
      EnoughIs(n - 1);
      var q := PrimeAfter(Enough(n - 1));
      PrimesGrow(Enough(n - 1), q);
      PrimesEnd(q);
    }
  }

  lemma PrimesEnd(q: nat)
    requires IsPrime(q)
    ensures Primes(q + 1) == Primes(q) + [q]
  {
    hide Divides;
  }

  lemma {:induction false} PrimesGrow(m: nat, n: nat)
    requires m <= n
    ensures |Primes(m)| <= |Primes(n)|
    decreases n
  {
    if m < n { PrimesGrow(m, n - 1); }
  }

  /** How far the values given to a stage must reach for those given to the stage `k` places to
      its right to reach `Enough(n)`. */
  ghost function Needed(n: nat, k: nat): nat {
    if k == 0 then Enough(n) else PrimeAfter(Needed(n, k - 1)) + 1
  }

  lemma {:induction false} NeededGrows(n: nat, j: nat, k: nat)
    requires j <= k
    ensures Needed(n, j) <= Needed(n, k)
    decreases k
  {
    if j < k { NeededGrows(n, j, k - 1); }
  }

  // ---- From each stage to the next ----

  lemma {:induction false} InSurvivors(ps: seq<nat>, n: nat, v: nat)
    ensures v in Survivors(ps, n) <==> 2 <= v < n && Survives(ps, v)
  {
    hide Divides, Survives;
    if n > 2 { InSurvivors(ps, n - 1, v); }
  }

  lemma {:induction false} LastSurvivor(ps: seq<nat>, n: nat, v: nat)
    requires v in Survivors(ps, n)
    ensures var r := Survivors(ps, n); v in r[..|r| - 1] || v == r[|r| - 1]
    ensures var r := Survivors(ps, n); v <= r[|r| - 1]
  {
    hide Divides, Survives;
    if n > 2 && !Survives(ps, n - 1) {
      LastSurvivor(ps, n - 1, v);
      assert Survivors(ps, n) == Survivors(ps, n - 1);
    } else {
      InSurvivors(ps, n, v);
    }
  }

  lemma {:induction false} InSift(vs: seq<nat>, p: nat, v: nat)
    requires v in vs && !Divides(p, v)
    ensures v in Sift(vs, p)
  {
    hide Divides;
    if v != vs[|vs| - 1] { InSift(vs[..|vs| - 1], p, v); }
  }

  ghost predicate Reaches(s: Stage, bound: nat) {
    exists v :: v in s.received && v >= bound
  }

  /** The announced primes of at most `n` stages are below `Enough(n)`. */
  lemma PrimeIsSmall(w: Pipeline, n: nat, k: nat)
    requires Inv(w) && k < |w.stages| && k < n && HasPrime(w.stages[k])
    ensures PrimeOf(w.stages[k]) < Enough(n) && forall m :: 0 <= m <= k ==> PrimeOf(w.stages[m]) < Enough(n)
  {
    hide Inv, IsPrime, Divides;
    var p := PrimeOf(w.stages[k]);
    var n0 := StagesSieve(w, k);
    EnoughIs(n);
    var ps := Announced(w, k + 1);
    assert ps[k] == p && p in Primes(p + 1);
    PrimesEnd(p);
    if p >= Enough(n) {
      PrimesGrow(Enough(n), p);
      assert false;
    }
    forall m | 0 <= m <= k ensures PrimeOf(w.stages[m]) <= p {
      assert ps[m] in Primes(p + 1);
    }
  }

  /** A prime that is none of the announced ones gets past every stage. */
  lemma Undivided(w: Pipeline, k: nat, q: nat)
    requires Inv(w) && k < |w.stages| && IsPrime(q)
    requires forall m :: 0 <= m <= k ==> HasPrime(w.stages[m]) && PrimeOf(w.stages[m]) < q
    ensures Survives(Announced(w, k), q) && !Divides(PrimeOf(w.stages[k]), q)
  {
    forall m | 0 <= m <= k ensures !Divides(PrimeOf(w.stages[m]), q) {
      assert StageOk(w.stages[m], m == |w.stages| - 1);
    }
  }

  lemma ReachesNext(w: Pipeline, n: nat, k: nat, bound: nat)
    requires Inv(w) && k + 1 < |w.stages| <= n && bound >= Enough(n)
    requires Reaches(w.stages[k], PrimeAfter(bound) + 1)
    ensures Reaches(w.stages[k + 1], bound)
  {
    hide IsPrime, Divides, Survives, Enabled, Survivors, Sift, UpTo;
    var q := PrimeAfter(bound);
    assert Linked(w, k);
    var n0 := StagesSieve(w, k);
    PrimeIsSmall(w, n, k);
    assert q > bound;
    forall m | 0 <= m <= k ensures HasPrime(w.stages[m]) && PrimeOf(w.stages[m]) < q {}
    Undivided(w, k, q);
    var ps := Announced(w, k);
    var v :| v in w.stages[k].received && v >= q + 1;
    AtLeastTwo(q);
    InSurvivors(ps, n0, v);
    InSurvivors(ps, n0, q);
    LastSurvivor(ps, n0, q);
    LastSurvivor(ps, n0, v);
    assert q in Handled(w.stages[k]);
    InSift(Handled(w.stages[k]), PrimeOf(w.stages[k]), q);
    assert q in w.stages[k + 1].received;
  }

  /** Every stage of a short pipeline gets far when the generator has. */
  lemma {:induction false} ReachesFrom(w: Pipeline, n: nat, k: nat)
    requires Inv(w) && k < |w.stages| <= n && w.next > Needed(n, |w.stages| - 1) + 2
    ensures Reaches(w.stages[k], Needed(n, |w.stages| - 1 - k))
    decreases k
  {
    hide Inv;
    if k == 0 {
      FirstReaches(w);
    } else {
      ReachesFrom(w, n, k - 1);
      NeededGrows(n, 0, |w.stages| - 1 - k);
      ReachesNext(w, n, k - 1, Needed(n, |w.stages| - 1 - k));
    }
  }

  lemma FirstReaches(w: Pipeline)
    requires Inv(w) && w.next > 2
    ensures forall bound: nat :: bound < w.next ==> Reaches(w.stages[0], bound)
  {
    UpToIs(w.next);
  }

  /** A pipeline that has not `n` stages with a prime has not been given many values. */
  lemma NextBounded(w: Pipeline, n: nat)
    requires Inv(w) && |w.stages| <= n
    ensures w.next <= Needed(n, n) + 2
  {
    var last := |w.stages| - 1;
    NeededGrows(n, last, n);
    if w.next > Needed(n, n) + 2 {
      ReachesFrom(w, n, last);
      assert StageOk(w.stages[last], true);
      if HasPrime(w.stages[last]) { PrimeIsSmall(w, n, last); }
      assert false;
    }
  }

  /** The number of steps after which the first `n` primes are announced. */
  ghost function Within(n: nat): nat {
    4 * (Needed(n, n) + 3) * n
  }

  /** The first `n` primes, in order. */
  ghost predicate FirstPrimes(ps: seq<nat>, n: nat) {
    |ps| == n && exists m: nat :: ps == Primes(m)
  }

  /** Whatever the scheduling: every run that is long enough has announced the first `n` primes. */
  lemma Announces(ws: seq<Pipeline>, actions: seq<Action>, n: nat)
    requires IsRun(ws, actions) && |actions| > Within(n)
    ensures var w := ws[|actions|];
            |w.stages| > n && (forall k :: 0 <= k < n ==> HasPrime(w.stages[k])) && FirstPrimes(Announced(w, n), n)
  {
    hide Inv, Step, Enabled;
    var w := ws[|actions|];
    RunKeeps(ws, actions, |actions|);
    StepsBounded(ws, actions, |actions|);
    WorkBounded(w, |w.stages|);
    assert w.stages[..|w.stages|] == w.stages;
    if |w.stages| <= n {
      NextBounded(w, n);
      Product(w.next + 1, Needed(n, n) + 3, |w.stages|, n);
      assert false;
    }
    var n0 := StagesSieve(w, n);
    if n == 0 { NoPrimes(); }
  }

  lemma Product(a: nat, b: nat, c: nat, d: nat)
    requires a <= b && c <= d
    ensures 4 * a * c <= 4 * b * d
  {
    Monotone(4 * a, c, d);
    Monotone(d, 4 * a, 4 * b);
  }

  /** No pipeline of any run is stuck. */
  lemma NotStuck(ws: seq<Pipeline>, actions: seq<Action>, n: nat)
    requires IsRun(ws, actions) && n < |ws|
    ensures exists a :: Enabled(ws[n], a)
  {
    hide Step, Enabled;
    RunKeeps(ws, actions, n);
    Moves(ws[n], |ws[n].stages| - 1);
  }

  /** Some stage up to `k` can move, or umain can, if the stages to the right of `k` cannot. */
  lemma {:induction false} Moves(w: Pipeline, k: nat)
    requires Inv(w) && k < |w.stages| && (k + 1 < |w.stages| ==> Blocked(w.stages[k + 1]))
    ensures exists a :: Enabled(w, a)
    decreases k
  {
    hide Divides;
    assert StageOk(w.stages[k], k == |w.stages| - 1);
    match w.stages[k].phase
    case Top => assert Enabled(w, Receive(k));
    case Fork(_) => assert Enabled(w, ForkRight(k));
    case Loop(_) => assert Enabled(w, Receive(k));
    case Test(_, _) => assert Enabled(w, Filter(k));
    case Send(_, _) => assert Enabled(w, Pass(k));
    case _ =>
      if k == 0 { assert Enabled(w, Generate); } else { Moves(w, k - 1); }
  }

  /** Every run goes on for as long as one likes. */
  lemma {:induction false} GoesOn(ws: seq<Pipeline>, actions: seq<Action>, steps: nat)
      returns (ws': seq<Pipeline>, actions': seq<Action>)
    requires IsRun(ws, actions)
    ensures IsRun(ws', actions') && |actions'| == |actions| + steps && ws <= ws'
    decreases steps
  {
    if steps == 0 {
      ws', actions' := ws, actions;
    } else {
      NotStuck(ws, actions, |actions|);
      var a :| Enabled(ws[|actions|], a);
      var ws1, actions1 := ws + [Step(ws[|actions|], a)], actions + [a];
      OneStepMore(ws, actions, a);
      ws', actions' := GoesOn(ws1, actions1, steps - 1);
    }
  }

  lemma OneStepMore(ws: seq<Pipeline>, actions: seq<Action>, a: Action)
    requires IsRun(ws, actions) && Enabled(ws[|actions|], a)
    ensures IsRun(ws + [Step(ws[|actions|], a)], actions + [a])
  {
    hide Step, Enabled;
  }

  /** From every point of every run, and so from the start, the first `n` primes can be announced, for every `n`. */
  lemma EveryPrime(ws: seq<Pipeline>, actions: seq<Action>, n: nat)
    requires IsRun(ws, actions)
    ensures exists ws': seq<Pipeline>, actions': seq<Action> ::
              && IsRun(ws', actions') && ws <= ws'
              && |ws'[|actions'|].stages| > n && FirstPrimes(Announced(ws'[|actions'|], n), n)
  {
    hide Step, Enabled;
    var ws', actions' := GoesOn(ws, actions, Within(n) + 1);
    Announces(ws', actions', n);
  }
}
