/** What the runs that src/services/joern_server_manager.py does not rule out lead to: each
    step that the agreement of the tables has to exclude, and exactly when it does harm. */
module ServerRaces {
  import opened Basics
  import PortManagers
  import opened JoernServers
  import opened Eviction
  import opened ServerViews
  import opened ServerAgreement
  import opened ServerSequential

  // ---- Exactly when an untimely step does harm ----

  // The spawn of thread t, in the phase it is in, comes to an end with its server up.
  predicate Succeeds(ph: Phase, start: StartOutcome, wait: WaitOutcome) {
    (ph.Waiting? || (ph.Started? && start == Up)) && wait == Ready
  }

  // A spawn that has lost its reservation ends settled exactly when it fails.
  lemma RobbedSpawnSettlesIff(c: Limits, s: System, t: Thread, start: StartOutcome, wait: WaitOutcome, now: int)
    requires t in s.threads && (s.threads[t].Started? || s.threads[t].Waiting?) && s.threads[t].h !in s.l.resv
    ensures Settled(ViewOf(Rest(c, s, t, start, wait, now).l, s.threads[t].h))
       <==> !Succeeds(s.threads[t], start, wait)
  {
    var ph := s.threads[t];
    var s2 := Do(c, Do(c, s, StartDone(t, start)), FreePort(t));
    if ph.Waiting? || start == Up {
      assert t in s2.threads && s2.threads[t].Waiting? && s2.threads[t].h == ph.h && ph.h !in s2.l.resv;
      RobbedWaitSettlesIff(c, s2, t, wait, now);
    } else {
      FailureSettles(c, s2, t, wait, now);
    }
  }

  lemma RobbedWaitSettlesIff(c: Limits, s: System, t: Thread, wait: WaitOutcome, now: int)
    requires t in s.threads && s.threads[t].Waiting? && s.threads[t].h !in s.l.resv
    ensures var s' := Do(c, Do(c, Do(c, s, WaitDone(t, wait, now)), Leave(t)), Handle(t));
            Settled(ViewOf(s'.l, s.threads[t].h)) <==> wait != Ready
  {
    var h := s.threads[t].h;
    var s1 := Do(c, s, WaitDone(t, wait, now));
    if wait == Ready {
      assert Do(c, Do(c, s1, Leave(t)), Handle(t)).l == s.l.Touch(h, now).EndSpawn(h);
      assert h in s.l.Touch(h, now).lru;
    } else {
      CleanupLeavesNothing(s1.l.EndSpawn(h), h);
    }
  }

  lemma FailureSettles(c: Limits, s: System, t: Thread, wait: WaitOutcome, now: int)
    requires t in s.threads && s.threads[t].Failing?
    ensures Settled(ViewOf(Do(c, Do(c, Do(c, s, WaitDone(t, wait, now)), Leave(t)), Handle(t)).l, s.threads[t].h))
  {
    CleanupLeavesNothing(s.l.EndSpawn(s.threads[t].h), s.threads[t].h);
  }

  // A codebase cleaned up, or hit by the end of an eviction, while its spawn is booting is
  // settled after that spawn exactly when the spawn fails.
  lemma RemovedWhileBootingSettlesIff(c: Limits, s: System, t: Thread, u: Thread,
                                      start: StartOutcome, wait: WaitOutcome, now: int)
    requires t in s.threads && (s.threads[t].Started? || s.threads[t].Waiting?)
    requires u in s.calls && !s.calls[u].Touching? && s.calls[u].h == s.threads[t].h
    ensures Settled(ViewOf(Rest(c, Continue(s, u, now), t, start, wait, now).l, s.threads[t].h))
       <==> !Succeeds(s.threads[t], start, wait)
  {
    RobbedSpawnSettlesIff(c, Continue(s, u, now), t, start, wait, now);
  }

  // So is a codebase that a client has touched too early and that another spawn's make-room
  // then evicts.
  lemma EvictedWhileBootingSettlesIff(c: Limits, s: System, t: Thread, u: Thread, g: Hash, mb: nat, pressure: bool,
                                      start: StartOutcome, wait: WaitOutcome, now: int)
    requires Inv(s) && t in s.threads && (s.threads[t].Started? || s.threads[t].Waiting?)
    requires u !in s.threads && !Spawns(s, g)
    requires s.threads[t].h in s.l.lru && s.threads[t].h !in Enter(c, s, u, g, mb, pressure).l.lru
    ensures Settled(ViewOf(Rest(c, Enter(c, s, u, g, mb, pressure), t, start, wait, now).l, s.threads[t].h))
       <==> !Succeeds(s.threads[t], start, wait)
  {
    EvictedLosesReservation(c, s, s.threads[t].h, g, mb, pressure);
    RobbedSpawnSettlesIff(c, Enter(c, s, u, g, mb, pressure), t, start, wait, now);
  }

  lemma EvictedLosesReservation(c: Limits, s: System, h: Hash, g: Hash, mb: nat, pressure: bool)
    requires Inv(s) && !Spawns(s, g) && g != h
    requires h in s.l.lru && h !in s.l.BeginSpawn(c, g, mb, pressure).0.lru
    ensures h !in s.l.BeginSpawn(c, g, mb, pressure).0.resv
  {
    ClearStaleKeepsInv(s, g);
    var s1 := s.(l := s.l.ClearStale(g));
    LruIsSettled(s1);
    var _, _, k := MakeRoomEvictsPrefix(c, s1.l, mb, pressure);
    var l := s1.l.MakeRoom(c, mb, pressure);
    assert h in s1.l.lru;
    assert l.Reserve(g, mb).0.lru == l.lru;
    EvictedPrefixLosesReservation(s1.l, l, k, h);
    assert l.Reserve(g, mb).0.resv.Keys <= l.resv.Keys + {g};
  }

  lemma EvictedPrefixLosesReservation(l: Local, r: Local, k: nat, h: Hash)
    requires EvictedPrefix(l, r, k) && h in l.lru && h !in r.lru
    ensures h !in r.resv
  {
    assert l.lru == l.lru[..k] + l.lru[k..];
    assert h in Elements(l.lru[..k]);
  }

  // The end of an eviction leaves a codebase with no spawn in flight settled exactly when
  // nobody has registered it again since.
  lemma LateTailSettlesIff(s: System, u: Thread, now: int)
    requires Inv(s) && u in s.calls && s.calls[u].Dropping? && !InFlight(s, s.calls[u].h)
    ensures Settled(ViewOf(Continue(s, u, now).l, s.calls[u].h)) <==> s.calls[u].h !in s.l.ports
  {
    SettledUnlessInFlight(s, s.calls[u].h);
    TailView(s.l, s.calls[u].h, s.calls[u].terminated);
  }

  // A touch leaves a codebase with no spawn in flight settled exactly when it is registered
  // still.
  lemma LateTouchSettlesIff(s: System, u: Thread, now: int)
    requires Inv(s) && u in s.calls && s.calls[u].Touching? && !InFlight(s, s.calls[u].h)
    ensures Settled(ViewOf(Continue(s, u, now).l, s.calls[u].h)) <==> s.calls[u].h in s.l.ports
  {
    SettledUnlessInFlight(s, s.calls[u].h);
    TouchView(s.l, s.calls[u].h, now);
  }

  // ---- Runs from the start, on a range of one port where that is enough ----

  // The tables with the given ports, reservations and order, and one port lo, held by `held`.
  function Tables(lo: int, ports: map<Hash, int>, resv: map<Hash, nat>, lru: seq<Hash>,
                  lastTouch: map<Hash, int>, spawning: set<Hash>, held: Option<Hash>): Local
  {
    Local(ports, ports.Keys, resv, lru, lastTouch, spawning, 0,
          if held == None then PortManagers.Ports(lo, lo, map[], map[], {lo}, lo)
          else PortManagers.Ports(lo, lo, map[held.value := lo], map[lo := held.value], {}, lo))
  }

  function Empty(lo: int): Local {
    Tables(lo, map[], map[], [], map[], {}, None)
  }

  lemma StartIsEmpty(lo: int)
    ensures Start(lo, lo) == Idle(Empty(lo))
  {
    assert PortManagers.PortRange(lo, lo) == {lo};
  }

  function Reserved(lo: int, h: Hash, mb: nat): Local {
    Tables(lo, map[], map[h := mb], [], map[], {h}, Some(h))
  }

  // A spawn enters: with nothing to evict it is given the port.
  lemma FirstSpawn(c: Limits, lo: int, h: Hash, mb: nat, t: Thread, calls: map<Thread, Call>)
    requires t !in calls
    ensures Do(c, System(Empty(lo), map[], calls), Spawn(t, h, mb, false, false))
         == System(Reserved(lo, h, mb), map[t := Started(h, lo)], calls)
  {
    var l := Empty(lo);
    assert PortManagers.NextAvailableFrom(l.pm.available, lo) in l.pm.available;
    assert l.MakeRoom(c, mb, false) == l;
    assert {lo} - {lo} == {};
  }

  // And its server comes up.
  lemma Boots(c: Limits, lo: int, h: Hash, mb: nat, t: Thread, calls: map<Thread, Call>, now: int)
    ensures var s := System(Reserved(lo, h, mb), map[t := Started(h, lo)], calls);
            Do(c, Do(c, Do(c, s, StartDone(t, Up)), WaitDone(t, Ready, now)), Leave(t))
            == System(UpTables(lo, h, mb, now), map[], calls)
  {
    var s := System(Reserved(lo, h, mb), map[t := Started(h, lo)], calls);
    var s1 := Do(c, s, StartDone(t, Up));
    assert s1 == System(Tables(lo, map[h := lo], map[h := mb], [], map[], {h}, Some(h)), map[t := Waiting(h, lo)], calls);
    var s2 := Do(c, s1, WaitDone(t, Ready, now));
    assert s2.threads - {t} == map[] && {h} - {h} == {};
  }

  lemma CleanedUp(lo: int, l: Local, h: Hash)
    requires l.ports.Keys <= {h} && l.resv.Keys <= {h} && l.lastTouch.Keys <= {h} && (l.lru == [] || l.lru == [h])
    requires l == Tables(lo, l.ports, l.resv, l.lru, l.lastTouch, l.spawning, Some(h))
    ensures l.Cleanup(h) == Tables(lo, map[], map[], [], map[], l.spawning, None)
  {
    assert l.ports - {h} == map[] && l.resv - {h} == map[] && l.lastTouch - {h} == map[];
    assert map[h := lo] - {h} == map[] && map[lo := h] - {lo} == map[] && l.execs - {h} == {};
    assert Drop([h], h) == [];
  }

  // A server terminated while its spawn waits for it, whose wait then ends well, is left in
  // the eviction order alone, and nothing is in flight any more.
  lemma TerminatedWhileWaiting(c: Limits, lo: int, h: Hash, mb: nat, now: int, s1: System, s2: System)
    requires s1 == Do(c, Do(c, Start(lo, lo), Spawn(1, h, mb, false, false)), StartDone(1, Up))
    requires s2 == Do(c, Do(c, s1, Remove(2, h, false)), Proceed(2, now))
    ensures Do(c, Do(c, s2, WaitDone(1, Ready, now)), Leave(1))
         == Idle(Tables(lo, map[], map[], [h], map[h := now], {}, None))
  {
    StartIsEmpty(lo);
    FirstSpawn(c, lo, h, mb, 1, map[]);
    assert s1 == OneThreadOf(1, WaitingTables(lo, h, mb), Waiting(h, lo));
    TerminationWhileWaiting(c, lo, h, mb, now);
    WaitEndsAfterTermination(c, lo, h, now);
  }

  function WaitingTables(lo: int, h: Hash, mb: nat): Local {
    Tables(lo, map[h := lo], map[h := mb], [], map[], {h}, Some(h))
  }

  lemma TerminationWhileWaiting(c: Limits, lo: int, h: Hash, mb: nat, now: int)
    ensures Do(c, Do(c, OneThreadOf(1, WaitingTables(lo, h, mb), Waiting(h, lo)), Remove(2, h, false)), Proceed(2, now))
         == OneThreadOf(1, Tables(lo, map[], map[], [], map[], {h}, None), Waiting(h, lo))
  {
    var s := OneThreadOf(1, WaitingTables(lo, h, mb), Waiting(h, lo));
    CleanedUp(lo, WaitingTables(lo, h, mb), h);
    assert Do(c, s, Remove(2, h, false)).calls - {2} == map[];
  }

  lemma WaitEndsAfterTermination(c: Limits, lo: int, h: Hash, now: int)
    ensures var s := OneThreadOf(1, Tables(lo, map[], map[], [], map[], {h}, None), Waiting(h, lo));
            Do(c, Do(c, s, WaitDone(1, Ready, now)), Leave(1))
            == Idle(Tables(lo, map[], map[], [h], map[h := now], {}, None))
  {
    var s := OneThreadOf(1, Tables(lo, map[], map[], [], map[], {h}, None), Waiting(h, lo));
    assert s.threads[1 := Finishing(h)] - {1} == map[] && {h} - {h} == {};
  }

  function OneThreadOf(t: Thread, l: Local, ph: Phase): System {
    System(l, map[t := ph], map[])
  }

  // That run goes on, with a memory budget: the next spawn of the codebase is evicted by another
  // codebase's spawn before it has started, and both then register one port.
  lemma LeftoverSharesAPort(c: Limits, lo: int, g: Hash, h: Hash, mb: nat, now: int,
                            s1: System, s2: System, s3: System, s4: System)
    requires g != h && 0 < c.budget && mb <= c.budget
    requires s1 == Do(c, Do(c, Start(lo, lo), Spawn(1, h, mb, false, false)), StartDone(1, Up))
    requires s2 == Do(c, Do(c, s1, Remove(2, h, false)), Proceed(2, now))
    requires s3 == Do(c, Do(c, s2, WaitDone(1, Ready, now)), Leave(1))
    requires s4 == Do(c, Do(c, s3, Spawn(3, h, mb, false, false)), Spawn(4, g, mb, false, false))
    ensures var s := Do(c, Do(c, s4, StartDone(3, Up)), StartDone(4, Up));
            s.l.ports == map[h := lo, g := lo] && h !in s.l.resv && h !in s.l.pm.portOf
  {
    TerminatedWhileWaiting(c, lo, h, mb, now, s1, s2);
    LeftoverSpawn(c, lo, h, mb, now);
    SpawnOverLeftover(c, lo, g, h, mb, now);
    BothRegister(c, s4, lo, h, g);
  }

  lemma SpawnOverLeftover(c: Limits, lo: int, g: Hash, h: Hash, mb: nat, now: int)
    requires g != h && 0 < c.budget
    ensures Do(c, OneThreadOf(3, Tables(lo, map[], map[h := mb], [h], map[h := now], {h}, Some(h)), Started(h, lo)),
               Spawn(4, g, mb, false, false))
         == System(Tables(lo, map[], map[g := mb], [], map[], {h, g}, Some(g)).(evictions := 1),
                   map[3 := Started(h, lo), 4 := Started(g, lo)], map[])
  {
    LeftoverEvicted(c, lo, h, mb, now, mb);
    ReserveAfterLeftover(lo, g, h, mb);
    var l := Tables(lo, map[], map[h := mb], [h], map[h := now], {h}, Some(h));
    assert l.BeginSpawn(c, g, mb, false) == l.MakeRoom(c, mb, false).Reserve(g, mb);
  }

  lemma ReserveAfterLeftover(lo: int, g: Hash, h: Hash, mb: nat)
    ensures Empty(lo).(spawning := {h}, evictions := 1).Reserve(g, mb)
         == (Tables(lo, map[], map[g := mb], [], map[], {h, g}, Some(g)).(evictions := 1), Some(lo))
  {
    var l := Empty(lo).(spawning := {h}, evictions := 1);
    assert PortManagers.NextAvailableFrom(l.pm.available, lo) in l.pm.available;
    assert {lo} - {lo} == {} && {h} + {g} == {h, g};
  }

  lemma BothRegister(c: Limits, s: System, lo: int, h: Hash, g: Hash)
    requires g != h && s.threads == map[3 := Started(h, lo), 4 := Started(g, lo)] && s.l.ports == map[]
    requires h !in s.l.resv && h !in s.l.pm.portOf
    ensures var s' := Do(c, Do(c, s, StartDone(3, Up)), StartDone(4, Up));
            s'.l.ports == map[h := lo, g := lo] && h !in s'.l.resv && h !in s'.l.pm.portOf
  {
    var s1 := Do(c, s, StartDone(3, Up));
    assert s1.l.ports == map[h := lo] && s1.threads[4] == Started(g, lo);
  }

  lemma LeftoverSpawn(c: Limits, lo: int, h: Hash, mb: nat, now: int)
    requires 0 < c.budget && mb <= c.budget
    ensures Do(c, Idle(Tables(lo, map[], map[], [h], map[h := now], {}, None)), Spawn(3, h, mb, false, false))
         == OneThreadOf(3, Tables(lo, map[], map[h := mb], [h], map[h := now], {h}, Some(h)), Started(h, lo))
  {
    var l := Tables(lo, map[], map[], [h], map[h := now], {}, None);
    assert l.pm.available == {lo} && |l.pm.available| == 1;
    assert l.MakeRoom(c, mb, false) == l;
    assert PortManagers.NextAvailableFrom(l.pm.available, lo) in l.pm.available;
    assert {lo} - {lo} == {};
  }

  // Over budget or out of ports, the one entry of the order goes.
  lemma LeftoverEvicted(c: Limits, lo: int, h: Hash, mb: nat, now: int, needed: nat)
    requires 0 < c.budget
    ensures Tables(lo, map[], map[h := mb], [h], map[h := now], {h}, Some(h)).MakeRoom(c, needed, false)
         == Empty(lo).(spawning := {h}, evictions := 1)
  {
    var l := Tables(lo, map[], map[h := mb], [h], map[h := now], {h}, Some(h));
    var r := Empty(lo).(spawning := {h}, evictions := 1);
    assert map[h := mb] - {h} == map[] && map[h := now] - {h} == map[];
    assert map[h := lo] - {h} == map[] && map[lo := h] - {lo} == map[] && Drop([h], h) == [];
    assert l.Evict(h) == r;
    assert r.EvictForBudget(needed, c.budget) == r && r.EvictForPort() == r;
  }

  // An eviction that has cleaned up takes the reservation of the server spawned meanwhile.
  lemma LateTailTakesTheReservation(c: Limits, lo: int, h: Hash, mb: nat, now: int, s1: System, s2: System, s3: System)
    requires s1 == Do(c, Do(c, Do(c, Do(c, Start(lo, lo), Spawn(1, h, mb, false, false)), StartDone(1, Up)),
                            WaitDone(1, Ready, now)), Leave(1))
    requires s2 == Do(c, Do(c, s1, Remove(2, h, true)), Proceed(2, now))
    requires s3 == Do(c, Do(c, Do(c, Do(c, s2, Spawn(3, h, mb, false, false)), StartDone(3, Up)),
                            WaitDone(3, Ready, now)), Leave(3))
    ensures Do(c, s3, Proceed(2, now)) == Idle(Tables(lo, map[h := lo], map[], [], map[], {}, Some(h)).(evictions := 1))
  {
    StartIsEmpty(lo);
    FirstSpawn(c, lo, h, mb, 1, map[]);
    Boots(c, lo, h, mb, 1, map[], now);
    EvictionCleansUp(c, lo, h, mb, now);
    var calls := map[2 := Dropping(h, true)];
    FirstSpawn(c, lo, h, mb, 3, calls);
    Boots(c, lo, h, mb, 3, calls, now);
    EvictionEnds(lo, h, mb, now);
  }

  // The tables of one server that is up.
  function UpTables(lo: int, h: Hash, mb: nat, now: int): Local {
    Tables(lo, map[h := lo], map[h := mb], [h], map[h := now], {}, Some(h))
  }

  lemma EvictionCleansUp(c: Limits, lo: int, h: Hash, mb: nat, now: int)
    ensures Do(c, Do(c, Idle(UpTables(lo, h, mb, now)), Remove(2, h, true)), Proceed(2, now))
         == System(Empty(lo), map[], map[2 := Dropping(h, true)])
  {
    CleanedUp(lo, UpTables(lo, h, mb, now), h);
    var s := Do(c, Idle(UpTables(lo, h, mb, now)), Remove(2, h, true));
    assert s.calls == map[2 := Clearing(h, true)] && s.calls[2 := Dropping(h, true)] == map[2 := Dropping(h, true)];
  }

  lemma EvictionEnds(lo: int, h: Hash, mb: nat, now: int)
    ensures Continue(System(UpTables(lo, h, mb, now), map[], map[2 := Dropping(h, true)]), 2, now)
         == Idle(Tables(lo, map[h := lo], map[], [], map[], {}, Some(h)).(evictions := 1))
  {
    assert map[2 := Dropping(h, true)] - {2} == map[];
    assert map[h := mb] - {h} == map[] && map[h := now] - {h} == map[] && Drop([h], h) == [];
  }

  // ---- Two spawns of one codebase ----

  // A second spawn of the same codebase raises, and its handler frees the first one's port.
  lemma SecondSpawn(c: Limits, lo: int, h: Hash, mb: nat)
    ensures var s := OneThreadOf(1, Reserved(lo, h, mb), Started(h, lo));
            Do(c, Do(c, s, Spawn(2, h, mb, false, false)), Handle(2))
            == OneThreadOf(1, Tables(lo, map[], map[], [], map[], {h}, None), Started(h, lo))
  {
    var s := OneThreadOf(1, Reserved(lo, h, mb), Started(h, lo));
    assert Do(c, s, Spawn(2, h, mb, false, false)) == s.(threads := s.threads[2 := Handling(h)]);
    assert s.threads[2 := Handling(h)] - {2} == s.threads;
    CleanedUp(lo, s.l, h);
  }

  // Another codebase is then given that port.
  lemma ThirdSpawn(c: Limits, lo: int, g: Hash, h: Hash, mb: nat)
    requires g != h
    ensures Do(c, OneThreadOf(1, Tables(lo, map[], map[], [], map[], {h}, None), Started(h, lo)),
               Spawn(3, g, mb, false, false))
         == System(Tables(lo, map[], map[g := mb], [], map[], {h, g}, Some(g)),
                   map[1 := Started(h, lo), 3 := Started(g, lo)], map[])
  {
    var l := Tables(lo, map[], map[], [], map[], {h}, None);
    assert PortManagers.NextAvailableFrom(l.pm.available, lo) in l.pm.available;
    assert l.MakeRoom(c, mb, false) == l;
    assert {lo} - {lo} == {} && {h} + {g} == {h, g};
  }

  // Both spawns then register it: two servers on one port, one of them unaccounted for.
  lemma DoubleSpawnSharesAPort(c: Limits, lo: int, g: Hash, h: Hash, mb: nat,
                               s1: System, s2: System, s3: System, s4: System)
    requires g != h
    requires s1 == Do(c, Start(lo, lo), Spawn(1, h, mb, false, false))
    requires s2 == Do(c, Do(c, s1, Spawn(2, h, mb, false, false)), Handle(2))
    requires s3 == Do(c, s2, Spawn(3, g, mb, false, false))
    requires s4 == Do(c, s3, StartDone(3, Up))
    ensures var l := Do(c, s4, StartDone(1, Up)).l;
            l.ports == map[g := lo, h := lo] && h !in l.resv && h !in l.pm.portOf
  {
    StartIsEmpty(lo);
    FirstSpawn(c, lo, h, mb, 1, map[]);
    SecondSpawn(c, lo, h, mb);
    ThirdSpawn(c, lo, g, h, mb);
    BothOfThreeRegister(c, s3, lo, h, g);
  }

  lemma BothOfThreeRegister(c: Limits, s: System, lo: int, h: Hash, g: Hash)
    requires g != h && s.threads == map[1 := Started(h, lo), 3 := Started(g, lo)] && s.l.ports == map[]
    requires h !in s.l.resv && h !in s.l.pm.portOf
    ensures var l := Do(c, Do(c, s, StartDone(3, Up)), StartDone(1, Up)).l;
            l.ports == map[g := lo, h := lo] && h !in l.resv && h !in l.pm.portOf
  {
    var s1 := Do(c, s, StartDone(3, Up));
    assert s1.l.ports == map[g := lo] && s1.threads[1] == Started(h, lo);
  }

  // The spawning set alone does not keep two spawns of one codebase apart: one begun before
  // the failed one's handler has run is told the same port, and loses it to that handler.
  lemma LateHandlerFreesTheNextSpawn(c: Limits, lo: int, h: Hash, mb: nat, s1: System, s2: System, s3: System)
    requires s1 == Do(c, Start(lo, lo), Spawn(1, h, mb, false, false))
    requires s2 == Do(c, Do(c, s1, StartDone(1, Broken)), Leave(1))
    requires s3 == Do(c, s2, Spawn(2, h, mb, false, false))
    ensures s3.threads == map[1 := Handling(h), 2 := Started(h, lo)]
    ensures var s := Do(c, s3, Handle(1));
            s.threads == map[2 := Started(h, lo)] && h in s.l.spawning
            && h !in s.l.resv && h !in s.l.pm.portOf && lo in s.l.pm.available
  {
    StartIsEmpty(lo);
    FirstSpawn(c, lo, h, mb, 1, map[]);
    FailedSpawnLeaves(c, lo, h, mb);
    SpawnBeforeTheHandler(c, lo, h, mb);
    FirstHandled(c, lo, h, mb);
  }

  lemma FirstHandled(c: Limits, lo: int, h: Hash, mb: nat)
    ensures Do(c, System(Reserved(lo, h, mb), map[1 := Handling(h), 2 := Started(h, lo)], map[]), Handle(1))
         == System(Tables(lo, map[], map[], [], map[], {h}, None), map[2 := Started(h, lo)], map[])
  {
    CleanedUp(lo, Reserved(lo, h, mb), h);
    var threads := map[1 := Handling(h), 2 := Started(h, lo)];
    assert threads - {1} == map[2 := Started(h, lo)];
  }

  function LeftReserved(lo: int, h: Hash, mb: nat): Local {
    Tables(lo, map[], map[h := mb], [], map[], {}, Some(h))
  }

  lemma FailedSpawnLeaves(c: Limits, lo: int, h: Hash, mb: nat)
    ensures Do(c, Do(c, OneThreadOf(1, Reserved(lo, h, mb), Started(h, lo)), StartDone(1, Broken)), Leave(1))
         == OneThreadOf(1, LeftReserved(lo, h, mb), Handling(h))
  {
    var s := Do(c, OneThreadOf(1, Reserved(lo, h, mb), Started(h, lo)), StartDone(1, Broken));
    assert s == OneThreadOf(1, Reserved(lo, h, mb), Failing(h));
    assert {h} - {h} == {};
  }

  lemma SpawnBeforeTheHandler(c: Limits, lo: int, h: Hash, mb: nat)
    ensures Do(c, OneThreadOf(1, LeftReserved(lo, h, mb), Handling(h)), Spawn(2, h, mb, false, false))
         == System(Reserved(lo, h, mb), map[1 := Handling(h), 2 := Started(h, lo)], map[])
  {
    var l := LeftReserved(lo, h, mb);
    assert l.MakeRoom(c, mb, false) == l;
    assert map[h := mb][h := mb] == map[h := mb] && {} + {h} == {h};
  }
}
