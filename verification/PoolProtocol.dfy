/** Admission in Redis pool mode: the critical section of _spawn_server_redis (make-room,
    allocate, claim) as atomic Redis steps, interleaved with releases and touches by any
    process. A run is any sequence of actions; one that is not enabled changes nothing. */
module PoolProtocol {
  import opened Basics
  import opened PoolStores

  datatype Config = Config(
    budget: int,          // memory budget in MB; memory mode is on when positive
    lo: int, hi: int,     // worker port range
    known: set<Hash>)     // the codebases of the deployment

  // Where the holder of the admit lock is; the numbers are the manager's source lines.
  datatype Phase =
    | BudgetTest(h: Hash, mb: nat, seen: set<Hash>)                 // 351
    | BudgetPick(h: Hash, mb: nat, seen: set<Hash>)                 // 352-355
    | BudgetEvict(h: Hash, mb: nat, seen: set<Hash>, victim: Hash)  // 356
    | PortTest(h: Hash, mb: nat, seen: set<Hash>)                   // 357
    | PortPick(h: Hash, mb: nat, seen: set<Hash>)                   // 358-361
    | PortEvict(h: Hash, mb: nat, seen: set<Hash>, victim: Hash)    // 362
    | Allocating(h: Hash, mb: nat)                                  // 509
    | Claiming(h: Hash, mb: nat, port: int)                         // 515
    | NoPort                                                        // 511

  datatype Admission = Free | Held(phase: Phase)

  datatype System = System(ledger: Ledger, lock: Admission)

  datatype Action =
    | Acquire(h: Hash, mb: nat)
    | Advance(now: int)                  // the lock holder's next Redis step
    | AnyRelease(h: Hash)                // by any process, at any time
    | AnyTouch(h: Hash, now: int)
    | AnySetWorker(h: Hash, name: string)

  ghost function AdvancePhase(c: Config, l: Ledger, ph: Phase, now: int): System {
    match ph
    case BudgetTest(h, mb, seen) =>
      System(l, Held(if c.budget > 0 && Total(l.resv) + mb > c.budget
                     then BudgetPick(h, mb, seen) else PortTest(h, mb, seen)))
    case BudgetPick(h, mb, seen) =>
      (match OldestIn(l.lru, seen)
       case None => System(l, Held(PortTest(h, mb, seen)))
       case Some(v) => System(l, Held(BudgetEvict(h, mb, seen + {v}, v))))
    case BudgetEvict(h, mb, seen, v) =>
      System(l.Release(v), Held(BudgetTest(h, mb, seen)))
    case PortTest(h, mb, seen) =>
      var (l', port) := l.AllocatePort(c.lo, c.hi);
      System(l', Held(if port == None then PortPick(h, mb, seen) else Allocating(h, mb)))
    case PortPick(h, mb, seen) =>
      (match OldestIn(l.lru, seen)
       case None => System(l, Held(Allocating(h, mb)))
       case Some(v) => System(l, Held(PortEvict(h, mb, seen + {v}, v))))
    case PortEvict(h, mb, seen, v) =>
      System(l.Release(v), Held(PortTest(h, mb, seen)))
    case Allocating(h, mb) =>
      var (l', port) := l.AllocatePort(c.lo, c.hi);
      System(l', Held(if port == None then NoPort else Claiming(h, mb, port.value)))
    case Claiming(h, mb, port) =>
      System(l.Claim(h, port, mb, now), Free)
    case NoPort =>
      System(l, Free)
  }

  ghost function Do(c: Config, s: System, a: Action): System {
    match a
    case Acquire(h, mb) =>
      if s.lock.Free? && h in c.known then s.(lock := Held(BudgetTest(h, mb, {}))) else s
    case Advance(now) =>
      if s.lock.Held? then AdvancePhase(c, s.ledger, s.lock.phase, now) else s
    case AnyRelease(h) => s.(ledger := s.ledger.Release(h))
    case AnyTouch(h, now) => if h in c.known then s.(ledger := s.ledger.Touch(h, now)) else s
    case AnySetWorker(h, name) => s.(ledger := s.ledger.SetWorker(h, name))
  }

  ghost function Run(c: Config, s: System, actions: seq<Action>): System
    decreases |actions|
  {
    if actions == [] then s else Run(c, Do(c, s, actions[0]), actions[1..])
  }

  const Start := System(Ledger(map[], map[], map[], [], 0), Free)

  // ---- Invariants ----

  ghost predicate Injective(m: map<Hash, int>) {
    forall g, h | g in m && h in m && g != h :: m[g] != m[h]
  }

  ghost predicate Consistent(c: Config, l: Ledger) {
    && l.resv.Keys == l.reg.Keys <= Members(l.lru) <= c.known
    && Sorted(l.lru)
    && Injective(l.reg)
  }

  // Within the budget, or one server that alone is too large for it.
  ghost predicate WithinBudget(c: Config, l: Ledger) {
    c.budget > 0 ==>
      Total(l.resv) <= c.budget || exists h :: h in l.resv && l.resv == map[h := l.resv[h]]
  }

  ghost predicate HasRoom(c: Config, l: Ledger, mb: nat) {
    c.budget > 0 ==> Total(l.resv) + mb <= c.budget || l.resv == map[]
  }

  ghost predicate HasPort(c: Config, l: Ledger) {
    c.lo <= c.hi ==> exists q | c.lo <= q <= c.hi :: q !in l.reg.Values
  }

  ghost predicate PhaseOk(c: Config, l: Ledger, ph: Phase) {
    match ph
    case BudgetTest(h, mb, seen) => h in c.known && seen <= c.known && seen !! l.resv.Keys
    case BudgetPick(h, mb, seen) => h in c.known && seen <= c.known && seen !! l.resv.Keys
    case BudgetEvict(h, mb, seen, v) =>
      h in c.known && v in seen && seen <= c.known && (seen - {v}) !! l.resv.Keys
    case PortTest(h, mb, seen) =>
      h in c.known && seen <= c.known && seen !! l.resv.Keys && HasRoom(c, l, mb)
    case PortPick(h, mb, seen) =>
      h in c.known && seen <= c.known && seen !! l.resv.Keys && HasRoom(c, l, mb)
    case PortEvict(h, mb, seen, v) =>
      h in c.known && v in seen && seen <= c.known && (seen - {v}) !! l.resv.Keys && HasRoom(c, l, mb)
    case Allocating(h, mb) => h in c.known && HasRoom(c, l, mb) && HasPort(c, l)
    case Claiming(h, mb, port) =>
      h in c.known && HasRoom(c, l, mb) && c.lo <= port <= c.hi && port !in l.reg.Values
    case NoPort => c.lo > c.hi
  }

  ghost predicate Inv(c: Config, s: System) {
    && Consistent(c, s.ledger)
    && WithinBudget(c, s.ledger)
    && (s.lock.Held? ==> PhaseOk(c, s.ledger, s.lock.phase))
  }

  // A release only ever frees memory and ports, so it keeps whatever the holder relies on.
  lemma ReleaseKeeps(c: Config, l: Ledger, v: Hash)
    requires Consistent(c, l) && WithinBudget(c, l)
    ensures Consistent(c, l.Release(v)) && WithinBudget(c, l.Release(v))
    ensures forall mb: nat :: HasRoom(c, l, mb) ==> HasRoom(c, l.Release(v), mb)
    ensures HasPort(c, l) ==> HasPort(c, l.Release(v))
    ensures l.Release(v).reg.Values <= l.reg.Values
  {
    ZRemKeeps(l.lru, v);
    TotalRemove(l.resv, v);
    OneOrNoneLeft(l.resv, v);
    assert l.Release(v).reg.Values <= l.reg.Values;
    if c.lo <= c.hi && HasPort(c, l) {
      var q :| c.lo <= q <= c.hi && q !in l.reg.Values;
      assert q !in l.Release(v).reg.Values;
    }
  }

  lemma OneOrNoneLeft(m: map<Hash, nat>, v: Hash)
    ensures m == map[] ==> m - {v} == map[]
    ensures (exists h :: h in m && m == map[h := m[h]]) ==>
              m - {v} == map[] || exists h :: h in m - {v} && m - {v} == map[h := (m - {v})[h]]
  {
    if h :| h in m && m == map[h := m[h]] {
      assert m - {v} == if h == v then map[] else m;
    }
  }

  // When no unseen member is left, nothing is reserved and nothing is registered.
  lemma NoVictimMeansEmpty(c: Config, l: Ledger, seen: set<Hash>)
    requires Consistent(c, l) && seen !! l.resv.Keys && OldestIn(l.lru, seen) == None
    ensures l.resv == map[] && l.reg == map[] && HasPort(c, l)
  {
    OldestIsLeast(l.lru, seen);
    assert l.resv.Keys == {};
    if c.lo <= c.hi {
      assert c.lo !in l.reg.Values;
    }
  }

  lemma VictimIsKnown(c: Config, l: Ledger, seen: set<Hash>)
    requires Consistent(c, l) && OldestIn(l.lru, seen).Some?
    ensures OldestIn(l.lru, seen).value in c.known - seen
  {
    OldestIsLeast(l.lru, seen);
    var e :| e in l.lru && e.member == OldestIn(l.lru, seen).value && e.member !in seen;
    assert e.member in Members(l.lru);
  }

  lemma ClaimKeeps(c: Config, l: Ledger, h: Hash, port: int, mb: nat, now: int)
    requires Consistent(c, l) && h in c.known && HasRoom(c, l, mb) && port !in l.reg.Values
    ensures Consistent(c, l.Claim(h, port, mb, now)) && WithinBudget(c, l.Claim(h, port, mb, now))
  {
    ZAddKeeps(l.lru, h, now);
    TotalUpdate(l.resv, h, mb);
    TotalRemove(l.resv, h);
    var r := l.resv[h := mb];
    if l.resv == map[] {
      assert h in r && r == map[h := r[h]];
    }
    var reg := l.reg[h := port];
    forall g, k | g in reg && k in reg && g != k ensures reg[g] != reg[k] {
      assert g != h ==> l.reg[g] in l.reg.Values;
      assert k != h ==> l.reg[k] in l.reg.Values;
    }
  }

  lemma AdvanceKeepsInv(c: Config, l: Ledger, ph: Phase, now: int)
    requires Inv(c, System(l, Held(ph)))
    ensures Inv(c, AdvancePhase(c, l, ph, now))
  {
    match ph
    case BudgetTest(h, mb, seen) =>
    case BudgetPick(h, mb, seen) =>
      if OldestIn(l.lru, seen) == None {
        NoVictimMeansEmpty(c, l, seen);
      } else {
        VictimIsKnown(c, l, seen);
      }
    case BudgetEvict(h, mb, seen, v) => ReleaseKeeps(c, l, v);
    case PortTest(h, mb, seen) => AllocateFailsIffAllTaken(l, c.lo, c.hi);
    case PortPick(h, mb, seen) =>
      if OldestIn(l.lru, seen) == None {
        NoVictimMeansEmpty(c, l, seen);
      } else {
        VictimIsKnown(c, l, seen);
      }
    case PortEvict(h, mb, seen, v) => ReleaseKeeps(c, l, v);
    case Allocating(h, mb) => AllocateFailsIffAllTaken(l, c.lo, c.hi);
    case Claiming(h, mb, port) => ClaimKeeps(c, l, h, port, mb, now);
    case NoPort =>
  }

  lemma DoKeepsInv(c: Config, s: System, a: Action)
    requires Inv(c, s)
    ensures Inv(c, Do(c, s, a))
  {
    match a
    case Acquire(h, mb) =>
    case Advance(now) =>
      if s.lock.Held? {
        AdvanceKeepsInv(c, s.ledger, s.lock.phase, now);
      }
    case AnyRelease(h) => ReleaseKeeps(c, s.ledger, h);
    case AnyTouch(h, now) => ZAddKeeps(s.ledger.lru, h, now);
    case AnySetWorker(h, name) =>
  }

  lemma {:induction false} RunKeepsInv(c: Config, s: System, actions: seq<Action>)
    requires Inv(c, s)
    ensures Inv(c, Run(c, s, actions))
    decreases |actions|
  {
    if actions == [] {
    } else {
      DoKeepsInv(c, s, actions[0]);
      RunKeepsInv(c, Do(c, s, actions[0]), actions[1..]);
    }
  }

  // ---- Main results ----

  // Every reachable ledger stays within the budget, or holds one oversized server.
  lemma BudgetHolds(c: Config, actions: seq<Action>)
    requires c.budget > 0
    ensures var l := Run(c, Start, actions).ledger;
            Total(l.resv) <= c.budget || exists h :: h in l.resv && l.resv == map[h := l.resv[h]]
  {
    RunKeepsInv(c, Start, actions);
  }

  // Every reachable ledger reserves exactly for the registered workers, keeps them all in
  // the eviction order, and gives no port to two of them.
  lemma LedgerStaysConsistent(c: Config, actions: seq<Action>)
    ensures var l := Run(c, Start, actions).ledger;
            && l.resv.Keys == l.reg.Keys <= Members(l.lru)
            && (forall g, h | g in l.reg && h in l.reg && g != h :: l.reg[g] != l.reg[h])
  {
    RunKeepsInv(c, Start, actions);
  }

  // On a non-empty port range the "No free worker ports" error cannot be reached.
  lemma NoPortIsUnreachable(c: Config, actions: seq<Action>)
    requires c.lo <= c.hi
    ensures Run(c, Start, actions).lock != Held(NoPort)
  {
    RunKeepsInv(c, Start, actions);
  }

  // ---- Make-room terminates ----

  // An upper bound on the Redis steps the lock holder still has to take.
  ghost function Rank(c: Config, ph: Phase): int {
    match ph
    case BudgetTest(h, mb, seen) => 3 * |c.known - seen| + 10
    case BudgetPick(h, mb, seen) => 3 * |c.known - seen| + 9
    case BudgetEvict(h, mb, seen, v) => 3 * |c.known - seen| + 11
    case PortTest(h, mb, seen) => 3 * |c.known - seen| + 5
    case PortPick(h, mb, seen) => 3 * |c.known - seen| + 4
    case PortEvict(h, mb, seen, v) => 3 * |c.known - seen| + 6
    case Allocating(h, mb) => 2
    case Claiming(h, mb, port) => 1
    case NoPort => 1
  }

  lemma VictimShrinksUnseen(c: Config, l: Ledger, seen: set<Hash>)
    requires Consistent(c, l) && OldestIn(l.lru, seen).Some?
    ensures |c.known - (seen + {OldestIn(l.lru, seen).value})| == |c.known - seen| - 1
  {
    var v := OldestIn(l.lru, seen).value;
    VictimIsKnown(c, l, seen);
    assert c.known - (seen + {v}) == (c.known - seen) - {v};
  }

  lemma PickLowersRank(c: Config, l: Ledger, ph: Phase, now: int)
    requires Consistent(c, l) && (ph.BudgetPick? || ph.PortPick?)
    ensures var lock := AdvancePhase(c, l, ph, now).lock;
            lock.Held? && Rank(c, lock.phase) < Rank(c, ph)
  {
    if OldestIn(l.lru, ph.seen).Some? {
      VictimShrinksUnseen(c, l, ph.seen);
    }
  }

  lemma AdvanceLowersRank(c: Config, l: Ledger, ph: Phase, now: int)
    requires Consistent(c, l)
    ensures var lock := AdvancePhase(c, l, ph, now).lock;
            lock.Held? ==> Rank(c, lock.phase) < Rank(c, ph)
  {
    if ph.BudgetPick? || ph.PortPick? {
      PickLowersRank(c, l, ph, now);
    }
  }

  lemma RankIsBounded(c: Config, ph: Phase)
    ensures 1 <= Rank(c, ph) <= 3 * |c.known| + 11
  {
    if !ph.Allocating? && !ph.Claiming? && !ph.NoPort? {
      assert |c.known - ph.seen| + |c.known * ph.seen| == |c.known|;
    }
  }

  function Advances(actions: seq<Action>): nat {
    if actions == [] then 0
    else (if actions[0].Advance? then 1 else 0) + Advances(actions[1..])
  }

  // While the lock is held, however other processes release and touch, its holder takes
  // at most Rank steps: 3 per known codebase plus a constant.
  lemma {:induction false} AdmissionTerminates(c: Config, s: System, actions: seq<Action>)
    requires Inv(c, s)
    requires forall k | 0 <= k <= |actions| :: Run(c, s, actions[..k]).lock.Held?
    ensures s.lock.Held? && Advances(actions) < Rank(c, s.lock.phase)
    ensures Rank(c, s.lock.phase) <= 3 * |c.known| + 11
    decreases |actions|
  {
    assert Run(c, s, actions[..0]) == s;
    RankIsBounded(c, s.lock.phase);
    if actions == [] {
    } else {
      var s' := Do(c, s, actions[0]);
      forall k | 0 <= k <= |actions| - 1 ensures Run(c, s', actions[1..][..k]).lock.Held? {
        assert actions[..k + 1][1..] == actions[1..][..k];
      }
      DoKeepsInv(c, s, actions[0]);
      AdmissionTerminates(c, s', actions[1..]);
      if actions[0].Advance? {
        AdvanceLowersRank(c, s.ledger, s.lock.phase, actions[0].now);
      }
    }
  }

  // ---- When the eviction order holds more than the ledger ----

  // In the eviction order without a reservation.
  predicate Stray(s: System, h: Hash) {
    h in Members(s.ledger.lru) && h !in s.ledger.resv
  }

  // The step touches the codebase while nothing is reserved for it.
  predicate TouchesUnreserved(c: Config, s: System, a: Action, h: Hash) {
    a.AnyTouch? && a.h == h && h in c.known && h !in s.ledger.resv
  }

  // The step releases, evicts or claims the codebase.
  predicate Settles(s: System, a: Action, h: Hash) {
    || a == AnyRelease(h)
    || (a.Advance? && s.lock.Held?
        && match s.lock.phase
           case BudgetEvict(_, _, _, v) => v == h
           case PortEvict(_, _, _, v) => v == h
           case Claiming(g, _, _) => g == h
           case _ => false)
  }

  lemma StepMakesStray(c: Config, s: System, a: Action, h: Hash)
    requires Inv(c, s)
    ensures Stray(Do(c, s, a), h) <==> TouchesUnreserved(c, s, a, h) || (Stray(s, h) && !Settles(s, a, h))
  {
    var l := s.ledger;
    match a
    case Acquire(g, mb) =>
    case AnyRelease(g) => ZRemKeeps(l.lru, g);
    case AnyTouch(g, now) => ZAddKeeps(l.lru, g, now);
    case AnySetWorker(g, name) =>
    case Advance(now) =>
      if s.lock.Held? {
        AdvanceMakesStray(c, l, s.lock.phase, now, h);
      }
  }

  lemma AdvanceMakesStray(c: Config, l: Ledger, ph: Phase, now: int, h: Hash)
    requires Inv(c, System(l, Held(ph)))
    ensures Stray(AdvancePhase(c, l, ph, now), h)
       <==> Stray(System(l, Held(ph)), h) && !Settles(System(l, Held(ph)), Advance(now), h)
  {
    match ph
    case BudgetEvict(_, _, _, v) => ZRemKeeps(l.lru, v);
    case PortEvict(_, _, _, v) => ZRemKeeps(l.lru, v);
    case Claiming(g, mb, port) => ZAddKeeps(l.lru, g, now);
    case _ =>
  }

  // Step i touched the codebase while unreserved, and no later step settled it.
  ghost predicate TouchOutstanding(c: Config, actions: seq<Action>, h: Hash, i: nat) {
    && i < |actions|
    && TouchesUnreserved(c, Run(c, Start, actions[..i]), actions[i], h)
    && forall k | i < k < |actions| :: !Settles(Run(c, Start, actions[..k]), actions[k], h)
  }

  lemma {:induction false} RunSnoc(c: Config, s: System, actions: seq<Action>, a: Action)
    ensures Run(c, s, actions + [a]) == Do(c, Run(c, s, actions), a)
    decreases |actions|
  {
    if actions == [] {
      assert Run(c, Do(c, s, a), [a][1..]) == Do(c, s, a);
    } else {
      assert (actions + [a])[1..] == actions[1..] + [a];
      RunSnoc(c, Do(c, s, actions[0]), actions[1..], a);
    }
  }

  // In every reachable ledger a codebase is in the eviction order without a reservation exactly
  // when it was touched while unreserved and not released, evicted or claimed since.
  lemma {:induction false} StrayIffTouchOutstanding(c: Config, actions: seq<Action>, h: Hash)
    ensures Stray(Run(c, Start, actions), h) <==> exists i: nat :: TouchOutstanding(c, actions, h, i)
    decreases |actions|
  {
    if actions == [] {
      assert Members([]) == {};
    } else {
      var n := |actions| - 1;
      var rest, a := actions[..n], actions[n];
      assert actions == rest + [a];
      RunSnoc(c, Start, rest, a);
      RunKeepsInv(c, Start, rest);
      StepMakesStray(c, Run(c, Start, rest), a, h);
      StrayIffTouchOutstanding(c, rest, h);
      OutstandingAfterOneMore(c, rest, a, h);
    }
  }

  lemma OutstandingAfterOneMore(c: Config, rest: seq<Action>, a: Action, h: Hash)
    ensures (exists i: nat :: TouchOutstanding(c, rest + [a], h, i))
       <==> || TouchesUnreserved(c, Run(c, Start, rest), a, h)
            || ((exists i: nat :: TouchOutstanding(c, rest, h, i)) && !Settles(Run(c, Start, rest), a, h))
  {
    var actions, n := rest + [a], |rest|;
    assert forall k | 0 <= k <= n :: actions[..k] == rest[..k];
    assert rest[..n] == rest;
    if i: nat :| TouchOutstanding(c, actions, h, i) {
      if i < n {
        assert TouchOutstanding(c, rest, h, i);
      }
    }
    if TouchesUnreserved(c, Run(c, Start, rest), a, h) {
      assert TouchOutstanding(c, actions, h, n);
    }
    if i: nat :| TouchOutstanding(c, rest, h, i) {
      if !Settles(Run(c, Start, rest), a, h) {
        assert TouchOutstanding(c, actions, h, i);
      }
    }
  }

  // So the eviction order lists exactly the reserved codebases when no such touch is outstanding.
  lemma OrderIsLedgerIff(c: Config, actions: seq<Action>)
    ensures var l := Run(c, Start, actions).ledger;
            Members(l.lru) == l.resv.Keys
            <==> (forall h, i: nat :: !TouchOutstanding(c, actions, h, i))
  {
    var s := Run(c, Start, actions);
    RunKeepsInv(c, Start, actions);
    if forall h, i: nat :: !TouchOutstanding(c, actions, h, i) {
      forall m | m in Members(s.ledger.lru) ensures m in s.ledger.resv.Keys {
        StrayIffTouchOutstanding(c, actions, m);
      }
    }
    if Members(s.ledger.lru) == s.ledger.resv.Keys {
      forall h, i: nat ensures !TouchOutstanding(c, actions, h, i) {
        StrayIffTouchOutstanding(c, actions, h);
      }
    }
  }

  // It happens: a codebase is admitted, its server released, and a touch that was already on
  // its way comes after. Until the next make-room picks it, it stays in the order.
  lemma LateTouchOutlivesItsReservation(c: Config, h: Hash, mb: nat, now: int)
    requires c.lo <= c.hi && h in c.known
    ensures var admit := [Acquire(h, mb), Advance(now), Advance(now), Advance(now), Advance(now), Advance(now)];
            && h in Run(c, Start, admit).ledger.resv
            && Stray(Run(c, Start, admit + [AnyRelease(h), AnyTouch(h, now)]), h)
  {
    var admit := [Acquire(h, mb), Advance(now), Advance(now), Advance(now), Advance(now), Advance(now)];
    AdmittedFromStart(c, h, mb, now);
    var released := admit + [AnyRelease(h)];
    RunSnoc(c, Start, admit, AnyRelease(h));
    RunSnoc(c, Start, released, AnyTouch(h, now));
    assert released + [AnyTouch(h, now)] == admit + [AnyRelease(h), AnyTouch(h, now)];
    RunKeepsInv(c, Start, released);
    StepMakesStray(c, Run(c, Start, released), AnyTouch(h, now), h);
  }

  lemma RunCons(c: Config, s: System, a: Action, rest: seq<Action>)
    ensures Run(c, s, [a] + rest) == Run(c, Do(c, s, a), rest)
  {
    assert ([a] + rest)[1..] == rest;
  }

  lemma AdmittedFromStart(c: Config, h: Hash, mb: nat, now: int)
    requires c.lo <= c.hi && h in c.known
    ensures h in Run(c, Start, [Acquire(h, mb), Advance(now), Advance(now), Advance(now), Advance(now), Advance(now)]).ledger.resv
  {
    var a, l := Advance(now), Start.ledger;
    var s1 := System(l, Held(BudgetTest(h, mb, {})));
    var four := [a, a, a, a];
    assert [Acquire(h, mb), a, a, a, a, a] == [Acquire(h, mb)] + ([a] + four);
    RunCons(c, Start, Acquire(h, mb), [a] + four);
    RunCons(c, s1, a, four);
    var s2 := Do(c, s1, a);
    assert four == [a] + [a, a, a];
    RunCons(c, s2, a, [a, a, a]);
    ClaimedFromPortTest(c, l, h, mb, {}, now);
    if s2.lock.phase.PortTest? {
      ClaimedFromPortTest(c, l, h, mb, {}, now);
    }
  }

  // With nothing registered, the port scan, the allocation and the claim follow.
  lemma ClaimedFromPortTest(c: Config, l: Ledger, h: Hash, mb: nat, seen: set<Hash>, now: int)
    requires c.lo <= c.hi && l.reg == map[]
    ensures h in Run(c, System(l, Held(PortTest(h, mb, seen))), [Advance(now), Advance(now), Advance(now)]).ledger.resv
    ensures h in Run(c, System(l, Held(PortTest(h, mb, seen))), [Advance(now), Advance(now), Advance(now), Advance(now)]).ledger.resv
  {
    var a := Advance(now);
    assert c.lo !in l.reg.Values;
    AllocateFailsIffAllTaken(l, c.lo, c.hi);
    var l1 := l.AllocatePort(c.lo, c.hi).0;
    AllocateFailsIffAllTaken(l1, c.lo, c.hi);
    var s0 := System(l, Held(PortTest(h, mb, seen)));
    var s1 := System(l1, Held(Allocating(h, mb)));
    assert Do(c, s0, a) == s1;
    var s2 := Do(c, s1, a);
    var s3 := Do(c, s2, a);
    assert h in s3.ledger.resv && s3.lock.Free?;
    assert [a, a, a, a] == [a] + [a, a, a] && [a, a, a] == [a] + [a, a] && [a, a] == [a] + [a];
    RunCons(c, s0, a, [a, a, a]);
    RunCons(c, s0, a, [a, a]);
    RunCons(c, s1, a, [a, a]);
    RunCons(c, s1, a, [a]);
    RunCons(c, s2, a, [a]);
    RunSnoc(c, s2, [], a);
    RunSnoc(c, s3, [], a);
    assert [] + [a] == [a];
  }
}
