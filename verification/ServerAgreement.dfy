/** What the in-process bookkeeping keeps over every interleaving of spawns, touches,
    evictions and terminations, each split where src/services/joern_server_manager.py
    gives up the state lock. */
module ServerAgreement {
  import opened Basics
  import opened PortManagers
  import opened JoernServers
  import opened Eviction
  import opened ServerViews

  type Thread = nat

  // Where a spawning thread has given up the lock.
  datatype Phase =
    | Started(h: Hash, port: int)    // reserved, container being started
    | Waiting(h: Hash, port: int)    // registered, waiting for readiness
    | Finishing(h: Hash)             // touched, about to leave the spawning set
    | Releasing(h: Hash)             // container missing, its port still to be released
    | Failing(h: Hash)               // an error raised, about to leave the spawning set
    | Handling(h: Hash)              // an error raised, the handler's cleanup to come

  // Any other call between two of its steps.
  datatype Call =
    | Touching(h: Hash, spawner: bool)     // found h registered, the touch to come
    | Clearing(h: Hash, evicting: bool)    // found an exec id of h, the cleanup to come
    | Dropping(h: Hash, terminated: bool)  // the end of an eviction to come

  datatype System = System(l: Local, threads: map<Thread, Phase>, calls: map<Thread, Call>)

  datatype Action =
    | Spawn(t: Thread, h: Hash, mb: nat, healthy: bool, pressure: bool)
    | StartDone(t: Thread, start: StartOutcome)
    | FreePort(t: Thread)
    | WaitDone(t: Thread, wait: WaitOutcome, now: int)
    | Leave(t: Thread)                           // the finally block
    | Handle(t: Thread)                          // the exception handler
    | Use(t: Thread, h: Hash)                    // a client looks for the server's port
    | Remove(t: Thread, h: Hash, evicting: bool) // terminate_server or _evict looks for the exec id
    | Proceed(t: Thread, now: int)               // the next locked step of such a call

  predicate Busy(s: System, t: Thread) {
    t in s.threads || t in s.calls
  }

  ghost function Enter(c: Limits, s: System, t: Thread, h: Hash, mb: nat, pressure: bool): System {
    var (l', port) := s.l.BeginSpawn(c, h, mb, pressure);
    s.(l := l', threads := s.threads[t := if port == None then Handling(h) else Started(h, port.value)])
  }

  // A healthy server is only touched.
  predicate FastPath(s: System, h: Hash, healthy: bool) {
    h in s.l.ports && healthy
  }

  // The step of a call after its look-up. A spawn that has touched a server no longer
  // registered fails on the lookup of its port, and its handler cleans up.
  function Continue(s: System, t: Thread, now: int): System
    requires t in s.calls
  {
    match s.calls[t]
    case Touching(h, spawner) =>
      s.(l := s.l.Touch(h, now),
         calls := if spawner && h !in s.l.ports then s.calls[t := Clearing(h, false)] else s.calls - {t})
    case Clearing(h, evicting) =>
      s.(l := s.l.Cleanup(h), calls := if evicting then s.calls[t := Dropping(h, true)] else s.calls - {t})
    case Dropping(h, terminated) =>
      s.(l := s.l.EvictTail(h, terminated), calls := s.calls - {t})
  }

  function Look(s: System, t: Thread, h: Hash, evicting: bool): System {
    if h in s.l.execs then s.(calls := s.calls[t := Clearing(h, evicting)])
    else if evicting then s.(calls := s.calls[t := Dropping(h, false)])
    else s
  }

  ghost function Do(c: Limits, s: System, a: Action): System {
    match a
    case Spawn(t, h, mb, healthy, pressure) =>
      if Busy(s, t) then s
      else if FastPath(s, h, healthy) then s.(calls := s.calls[t := Touching(h, true)])
      else Enter(c, s, t, h, mb, pressure)
    case StartDone(t, start) =>
      if t !in s.threads || !s.threads[t].Started? then s
      else
        var h, port := s.threads[t].h, s.threads[t].port;
        (match start
         case Up => s.(l := s.l.Register(h, port), threads := s.threads[t := Waiting(h, port)])
         case Missing => s.(l := s.l.ReleaseReservation(h), threads := s.threads[t := Releasing(h)])
         case Broken => s.(threads := s.threads[t := Failing(h)]))
    case FreePort(t) =>
      if t !in s.threads || !s.threads[t].Releasing? then s
      else s.(l := s.l.ReleasePort(s.threads[t].h), threads := s.threads[t := Failing(s.threads[t].h)])
    case WaitDone(t, wait, now) =>
      if t !in s.threads || !s.threads[t].Waiting? then s
      else
        var h := s.threads[t].h;
        s.(l := s.l.WaitEnded(h, wait, now),
           threads := s.threads[t := if wait == Ready then Finishing(h) else Failing(h)])
    case Leave(t) =>
      if t in s.threads && s.threads[t].Finishing? then
        s.(l := s.l.EndSpawn(s.threads[t].h), threads := s.threads - {t})
      else if t in s.threads && s.threads[t].Failing? then
        s.(l := s.l.EndSpawn(s.threads[t].h), threads := s.threads[t := Handling(s.threads[t].h)])
      else s
    case Handle(t) =>
      if t in s.threads && s.threads[t].Handling? then
        s.(l := s.l.Cleanup(s.threads[t].h), threads := s.threads - {t})
      else s
    case Use(t, h) =>
      if Busy(s, t) || h !in s.l.ports then s else s.(calls := s.calls[t := Touching(h, false)])
    case Remove(t, h, evicting) => if Busy(s, t) then s else Look(s, t, h, evicting)
    case Proceed(t, now) => if t in s.calls then Continue(s, t, now) else s
  }

  ghost function Run(c: Limits, s: System, actions: seq<Action>): System
    decreases |actions|
  {
    if actions == [] then s else Run(c, Do(c, s, actions[0]), actions[1..])
  }

  function Start(lo: int, hi: int): System {
    System(Local(map[], {}, map[], [], map[], {}, 0, InitPorts(lo, hi)), map[], map[])
  }

  predicate Spawns(s: System, h: Hash) {
    exists t | t in s.threads :: s.threads[t].h == h
  }

  // A spawn of h has neither brought its server up nor handled its failure yet.
  predicate InFlight(s: System, h: Hash) {
    exists t | t in s.threads :: s.threads[t].h == h && !s.threads[t].Finishing?
  }

  // A spawn of h is on its way to a server and has met no failure.
  predicate Booting(s: System, h: Hash) {
    exists t | t in s.threads :: s.threads[t].h == h && (s.threads[t].Started? || s.threads[t].Waiting?)
  }

  // The step of a call hits nothing that is booting: a touch finds its codebase registered
  // still, a cleanup finds it not booting, and an eviction that has cleaned up, or found
  // nothing to clean up, ends on a codebase nobody has spawned since.
  predicate Timely(s: System, call: Call) {
    match call
    case Touching(h, _) => h in s.l.ports
    case Clearing(h, _) => !Booting(s, h)
    case Dropping(h, _) => !Booting(s, h) && h !in s.l.ports
  }

  // No codebase is spawned twice at once, and nothing removes one that is booting. Clients
  // may touch it at any time.
  ghost predicate Disciplined(c: Limits, s: System, a: Action) {
    match a
    case Spawn(t, h, _, healthy, _) =>
      || FastPath(s, h, healthy)
      || (!Spawns(s, h) && forall g | Booting(s, g) && g in s.l.lru :: g in Do(c, s, a).l.lru)
    case Proceed(t, _) => t in s.calls ==> Timely(s, s.calls[t])
    case _ => true
  }

  ghost predicate DisciplinedRun(c: Limits, s: System, actions: seq<Action>)
    decreases |actions|
  {
    actions == []
    || (Disciplined(c, s, actions[0]) && DisciplinedRun(c, Do(c, s, actions[0]), actions[1..]))
  }

  predicate PhaseAgrees(v: View, ph: Phase) {
    match ph
    case Started(_, p) => v.resv.Some? && v == View(None, false, v.resv, false, false, Some(p))
    case Waiting(_, p) => Registered(v) && v.port == Some(p)
    case Finishing(_) => Settled(v)
    case Releasing(_) => v.port == None && !v.inLru
    case _ => if v.port.Some? then Registered(v) else !v.inLru
  }

  ghost predicate Inv(s: System) {
    && Sound(s.l)
    && (forall t | t in s.threads :: s.threads[t].h in s.l.spawning <==> !s.threads[t].Handling?)
    && (forall h | h in s.l.spawning :: Spawns(s, h))
    && (forall t, u | t in s.threads && u in s.threads && t != u :: s.threads[t].h != s.threads[u].h)
    && (forall t | t in s.threads :: PhaseAgrees(ViewOf(s.l, s.threads[t].h), s.threads[t]))
    && (forall h | !Spawns(s, h) :: Settled(ViewOf(s.l, h)))
  }

  // Calls carry no part of the invariant.
  lemma CallsDoNotMatter(s: System, calls: map<Thread, Call>)
    requires Inv(s)
    ensures Inv(s.(calls := calls))
  {
    var s' := s.(calls := calls);
    assert forall h :: Spawns(s', h) <==> Spawns(s, h);
  }

  // A step on one codebase keeps the invariant when that codebase's share fits its phase.
  lemma LocalStepKeepsInv(s: System, l': Local, h: Hash)
    requires Inv(s) && Sound(l') && l'.spawning == s.l.spawning
    requires forall g | g != h :: ViewOf(l', g) == ViewOf(s.l, g)
    requires forall t | t in s.threads && s.threads[t].h == h :: PhaseAgrees(ViewOf(l', h), s.threads[t])
    requires !Spawns(s, h) ==> Settled(ViewOf(l', h))
    ensures Inv(s.(l := l'))
  {
    var s' := s.(l := l');
    forall g ensures Spawns(s', g) <==> Spawns(s, g) {
    }
  }

  lemma LruIsSettled(s: System)
    requires Inv(s)
    ensures LruSettled(s.l)
  {
    forall h | h in s.l.lru ensures Running(ViewOf(s.l, h)) {
      if Spawns(s, h) {
        var t :| t in s.threads && s.threads[t].h == h;
        assert PhaseAgrees(ViewOf(s.l, h), s.threads[t]);
      }
    }
  }

  // Evicting a prefix that holds no booting codebase.
  lemma PrefixKeepsInv(s: System, r: Local, k: nat)
    requires Inv(s) && EvictedPrefix(s.l, r, k)
    requires forall g | Booting(s, g) && g in s.l.lru :: g in r.lru
    ensures Inv(s.(l := r))
  {
    var s' := s.(l := r);
    LruIsSettled(s);
    forall t | t in s.threads ensures PhaseAgrees(ViewOf(r, s.threads[t].h), s.threads[t]) {
      PhaseAfterPrefix(s, r, k, t);
    }
    forall g ensures Spawns(s', g) <==> Spawns(s, g) {
    }
    forall g | !Spawns(s, g) ensures Settled(ViewOf(r, g)) {
      assert Settled(ViewOf(s.l, g));
    }
  }

  lemma PhaseAfterPrefix(s: System, r: Local, k: nat, t: Thread)
    requires Inv(s) && EvictedPrefix(s.l, r, k) && t in s.threads
    requires forall g | Booting(s, g) && g in s.l.lru :: g in r.lru
    ensures PhaseAgrees(ViewOf(r, s.threads[t].h), s.threads[t])
  {
    var h := s.threads[t].h;
    assert PhaseAgrees(ViewOf(s.l, h), s.threads[t]);
    if h in s.l.lru[..k] {
      PrefixIsGone(s.l, r, k, h);
      assert ViewOf(r, h) == Absent;
      assert !Booting(s, h);
    }
  }

  lemma PrefixIsGone(l: Local, r: Local, k: nat, h: Hash)
    requires Unique(l.lru) && EvictedPrefix(l, r, k) && h in l.lru[..k]
    ensures h in l.lru && h !in r.lru
  {
    var i :| 0 <= i < k && l.lru[i] == h;
    forall j | 0 <= j < |r.lru| ensures r.lru[j] != h {
      assert r.lru[j] == l.lru[k + j];
    }
  }

  // A codebase not in flight is settled, whatever the rest of the system is doing.
  lemma SettledUnlessInFlight(s: System, h: Hash)
    requires Inv(s) && !InFlight(s, h)
    ensures Settled(ViewOf(s.l, h))
    ensures forall t | t in s.threads && s.threads[t].h == h :: s.threads[t].Finishing?
  {
    if Spawns(s, h) {
      var t :| t in s.threads && s.threads[t].h == h;
      assert PhaseAgrees(ViewOf(s.l, h), s.threads[t]);
    }
  }

  // ---- The steps of other calls ----

  lemma TouchKeepsInv(s: System, h: Hash, now: int)
    requires Inv(s) && h in s.l.ports
    ensures Inv(s.(l := s.l.Touch(h, now)))
  {
    TouchView(s.l, h, now);
    forall t | t in s.threads && s.threads[t].h == h
      ensures PhaseAgrees(ViewOf(s.l.Touch(h, now), h), s.threads[t])
    {
      assert PhaseAgrees(ViewOf(s.l, h), s.threads[t]);
    }
    LocalStepKeepsInv(s, s.l.Touch(h, now), h);
  }

  lemma CleanupKeepsInv(s: System, h: Hash)
    requires Inv(s) && !Booting(s, h)
    ensures Inv(s.(l := s.l.Cleanup(h)))
  {
    CleanupView(s.l, h);
    LocalStepKeepsInv(s, s.l.Cleanup(h), h);
  }

  lemma TailKeepsInv(s: System, h: Hash, terminated: bool)
    requires Inv(s) && !Booting(s, h) && h !in s.l.ports
    ensures Inv(s.(l := s.l.EvictTail(h, terminated)))
  {
    TailView(s.l, h, terminated);
    forall t | t in s.threads && s.threads[t].h == h
      ensures PhaseAgrees(ViewOf(s.l.EvictTail(h, terminated), h), s.threads[t])
    {
      assert PhaseAgrees(ViewOf(s.l, h), s.threads[t]);
    }
    LocalStepKeepsInv(s, s.l.EvictTail(h, terminated), h);
  }

  lemma ContinueKeepsInv(s: System, t: Thread, now: int)
    requires Inv(s) && t in s.calls && Timely(s, s.calls[t])
    ensures Inv(Continue(s, t, now))
  {
    var l', calls' := Continue(s, t, now).l, Continue(s, t, now).calls;
    match s.calls[t] {
      case Touching(h, _) => TouchKeepsInv(s, h, now);
      case Clearing(h, _) => CleanupKeepsInv(s, h);
      case Dropping(h, terminated) => TailKeepsInv(s, h, terminated);
    }
    CallsDoNotMatter(s.(l := l'), calls');
  }

  // ---- The steps of a spawn ----

  // Clearing a stale entry and making room leave the codebase with no share at all.
  lemma ClearAndMakeRoom(c: Limits, s: System, h: Hash, mb: nat, pressure: bool)
    requires Inv(s) && !Spawns(s, h)
    requires forall g | Booting(s, g) && g in s.l.lru :: g in s.l.ClearStale(h).MakeRoom(c, mb, pressure).lru
    ensures var l' := s.l.ClearStale(h).MakeRoom(c, mb, pressure);
            && Inv(s.(l := l')) && ViewOf(l', h) == Absent
            && l'.spawning == s.l.spawning && Range(l') == Range(s.l)
  {
    ClearStaleKeepsInv(s, h);
    RoomKeepsInv(c, s.(l := s.l.ClearStale(h)), h, mb, pressure);
  }

  lemma ClearStaleKeepsInv(s: System, h: Hash)
    requires Inv(s) && !Spawns(s, h)
    ensures var s1 := s.(l := s.l.ClearStale(h));
            && Inv(s1) && ViewOf(s1.l, h) == Absent
            && s1.l.spawning == s.l.spawning && Range(s1.l) == Range(s.l)
            && (forall g | g in s1.l.lru :: g in s.l.lru)
            && (forall g :: Booting(s1, g) <==> Booting(s, g))
  {
    CleanupView(s.l, h);
    assert !Booting(s, h);
    CleanupKeepsInv(s, h);
    assert h !in s.l.ports ==> Settled(ViewOf(s.l, h));
  }

  lemma RoomKeepsInv(c: Limits, s: System, h: Hash, mb: nat, pressure: bool)
    requires Inv(s) && ViewOf(s.l, h) == Absent
    requires forall g | Booting(s, g) && g in s.l.lru :: g in s.l.MakeRoom(c, mb, pressure).lru
    ensures var l' := s.l.MakeRoom(c, mb, pressure);
            && Inv(s.(l := l')) && ViewOf(l', h) == Absent
            && l'.spawning == s.l.spawning && Range(l') == Range(s.l)
  {
    LruIsSettled(s);
    var _, _, k := MakeRoomEvictsPrefix(c, s.l, mb, pressure);
    PrefixKeepsInv(s, s.l.MakeRoom(c, mb, pressure), k);
  }

  lemma ReserveView(l: Local, h: Hash, mb: nat)
    requires Sound(l) && ViewOf(l, h) == Absent
    ensures var (r, port) := l.Reserve(h, mb);
            && Sound(r) && Range(r) == Range(l) && r.lru == l.lru
            && ViewOf(r, h) == (if port == None then Absent else View(None, false, Some(mb), false, false, port))
            && r.spawning == l.spawning + (if port == None then {} else {h})
            && forall g | g != h :: ViewOf(r, g) == ViewOf(l, g)
  {
    AllocateValid(l.pm, h);
  }

  // A new thread enters with its codebase's share fitting its phase.
  lemma EnterKeepsInv(s: System, t: Thread, l': Local, ph: Phase)
    requires Inv(s) && t !in s.threads && Sound(l') && !Spawns(s, ph.h)
    requires l'.spawning == s.l.spawning + (if ph.Handling? then {} else {ph.h})
    requires PhaseAgrees(ViewOf(l', ph.h), ph)
    requires forall g | g != ph.h :: ViewOf(l', g) == ViewOf(s.l, g)
    ensures Inv(s.(l := l', threads := s.threads[t := ph]))
  {
    OneMoreOwner(s, t, l', ph);
    assert forall u | u in s.threads :: s.threads[u].h != ph.h;
  }

  lemma OneMoreOwner(s: System, t: Thread, l': Local, ph: Phase)
    requires t !in s.threads
    ensures forall g :: Spawns(s.(l := l', threads := s.threads[t := ph]), g) <==> Spawns(s, g) || g == ph.h
  {
    var s' := s.(l := l', threads := s.threads[t := ph]);
    assert s'.threads[t].h == ph.h;
    forall g ensures Spawns(s', g) <==> Spawns(s, g) || g == ph.h {
      if Spawns(s, g) {
        var u :| u in s.threads && s.threads[u].h == g;
        assert s'.threads[u].h == g;
      }
    }
  }

  lemma BeginSpawnKeepsInv(c: Limits, s: System, t: Thread, h: Hash, mb: nat, pressure: bool)
    requires Inv(s) && !Spawns(s, h) && t !in s.threads
    requires forall g | Booting(s, g) && g in s.l.lru :: g in Enter(c, s, t, h, mb, pressure).l.lru
    ensures Inv(Enter(c, s, t, h, mb, pressure)) && Range(Enter(c, s, t, h, mb, pressure).l) == Range(s.l)
  {
    var l1 := s.l.ClearStale(h).MakeRoom(c, mb, pressure);
    var (l', port) := l1.Reserve(h, mb);
    assert l'.lru == l1.lru && Enter(c, s, t, h, mb, pressure).l == l';
    ClearAndMakeRoom(c, s, h, mb, pressure);
    ReserveView(l1, h, mb);
    EnterKeepsInv(s.(l := l1), t, l', if port == None then Handling(h) else Started(h, port.value));
  }

  // A thread is done, its codebase's share settled.
  lemma DoneKeepsInv(s: System, t: Thread, l': Local)
    requires Inv(s) && t in s.threads && Sound(l')
    requires l'.spawning == s.l.spawning - {s.threads[t].h}
    requires Settled(ViewOf(l', s.threads[t].h))
    requires forall g | g != s.threads[t].h :: ViewOf(l', g) == ViewOf(s.l, g)
    ensures Inv(s.(l := l', threads := s.threads - {t}))
  {
    var h, s' := s.threads[t].h, s.(l := l', threads := s.threads - {t});
    forall g ensures Spawns(s', g) <==> Spawns(s, g) && g != h {
      if Spawns(s, g) && g != h {
        var u :| u in s.threads && s.threads[u].h == g;
        assert u in s'.threads && s'.threads[u].h == g;
      }
    }
  }

  // Moving on to the next phase of the same spawn.
  lemma NextPhaseKeepsInv(s: System, t: Thread, l': Local, ph: Phase)
    requires Inv(s) && t in s.threads && Sound(l') && ph.h == s.threads[t].h && !s.threads[t].Handling?
    requires l'.spawning == s.l.spawning - (if ph.Handling? then {ph.h} else {})
    requires PhaseAgrees(ViewOf(l', ph.h), ph)
    requires forall g | g != ph.h :: ViewOf(l', g) == ViewOf(s.l, g)
    ensures Inv(s.(l := l', threads := s.threads[t := ph]))
  {
    var s' := s.(l := l', threads := s.threads[t := ph]);
    SamePhaseOwner(s, t, l', ph);
    forall u | u in s'.threads ensures s'.threads[u].h in l'.spawning <==> !s'.threads[u].Handling? {
      assert u != t ==> s.threads[u].h != ph.h;
    }
  }

  lemma SamePhaseOwner(s: System, t: Thread, l': Local, ph: Phase)
    requires t in s.threads && ph.h == s.threads[t].h
    ensures forall g :: Spawns(s.(l := l', threads := s.threads[t := ph]), g) <==> Spawns(s, g)
  {
    var s' := s.(l := l', threads := s.threads[t := ph]);
    forall g ensures Spawns(s', g) <==> Spawns(s, g) {
      if Spawns(s, g) {
        var u :| u in s.threads && s.threads[u].h == g;
        assert s'.threads[u].h == g;
      }
      if Spawns(s', g) {
        var u :| u in s'.threads && s'.threads[u].h == g;
        assert s.threads[u].h == g;
      }
    }
  }

  lemma StartDoneKeepsInv(c: Limits, s: System, t: Thread, start: StartOutcome)
    requires Inv(s)
    ensures Inv(Do(c, s, StartDone(t, start)))
  {
    if t in s.threads && s.threads[t].Started? {
      var h, port := s.threads[t].h, s.threads[t].port;
      assert PhaseAgrees(ViewOf(s.l, h), s.threads[t]);
      match start
      case Up => NextPhaseKeepsInv(s, t, s.l.Register(h, port), Waiting(h, port));
      case Missing => NextPhaseKeepsInv(s, t, s.l.ReleaseReservation(h), Releasing(h));
      case Broken => NextPhaseKeepsInv(s, t, s.l, Failing(h));
    }
  }

  lemma FreePortKeepsInv(c: Limits, s: System, t: Thread)
    requires Inv(s)
    ensures Inv(Do(c, s, FreePort(t)))
  {
    if t in s.threads && s.threads[t].Releasing? {
      var h := s.threads[t].h;
      assert PhaseAgrees(ViewOf(s.l, h), s.threads[t]);
      ReleaseValid(s.l.pm, h);
      NextPhaseKeepsInv(s, t, s.l.ReleasePort(h), Failing(h));
    }
  }

  lemma WaitDoneKeepsInv(c: Limits, s: System, t: Thread, wait: WaitOutcome, now: int)
    requires Inv(s)
    ensures Inv(Do(c, s, WaitDone(t, wait, now)))
  {
    if t in s.threads && s.threads[t].Waiting? {
      var h := s.threads[t].h;
      assert PhaseAgrees(ViewOf(s.l, h), s.threads[t]);
      TouchView(s.l, h, now);
      CleanupView(s.l, h);
      NextPhaseKeepsInv(s, t, s.l.WaitEnded(h, wait, now), if wait == Ready then Finishing(h) else Failing(h));
    }
  }

  lemma LeaveKeepsInv(c: Limits, s: System, t: Thread)
    requires Inv(s)
    ensures Inv(Do(c, s, Leave(t)))
  {
    if t in s.threads {
      var h := s.threads[t].h;
      assert PhaseAgrees(ViewOf(s.l, h), s.threads[t]);
      if s.threads[t].Finishing? {
        DoneKeepsInv(s, t, s.l.EndSpawn(h));
      } else if s.threads[t].Failing? {
        NextPhaseKeepsInv(s, t, s.l.EndSpawn(h), Handling(h));
      }
    }
  }

  lemma HandleKeepsInv(c: Limits, s: System, t: Thread)
    requires Inv(s)
    ensures Inv(Do(c, s, Handle(t)))
  {
    if t in s.threads && s.threads[t].Handling? {
      var h := s.threads[t].h;
      CleanupView(s.l, h);
      assert s.l.spawning == s.l.spawning - {h};
      DoneKeepsInv(s, t, s.l.Cleanup(h));
    }
  }

  lemma SpawnKeepsInv(c: Limits, s: System, a: Action)
    requires Inv(s) && a.Spawn? && Disciplined(c, s, a)
    ensures Inv(Do(c, s, a)) && Range(Do(c, s, a).l) == Range(s.l)
  {
    if !Busy(s, a.t) {
      if FastPath(s, a.h, a.healthy) {
        CallsDoNotMatter(s, Do(c, s, a).calls);
      } else {
        BeginSpawnKeepsInv(c, s, a.t, a.h, a.mb, a.pressure);
      }
    }
  }

  lemma LookKeepsInv(c: Limits, s: System, a: Action)
    requires Inv(s) && (a.Use? || a.Remove?)
    ensures Inv(Do(c, s, a)) && Do(c, s, a).l == s.l
  {
    CallsDoNotMatter(s, Do(c, s, a).calls);
  }

  lemma DoKeepsInv(c: Limits, s: System, a: Action)
    requires Inv(s) && Disciplined(c, s, a)
    ensures Inv(Do(c, s, a)) && Range(Do(c, s, a).l) == Range(s.l)
  {
    match a
    case Spawn(_, _, _, _, _) => SpawnKeepsInv(c, s, a);
    case StartDone(t, start) => StartDoneKeepsInv(c, s, t, start);
    case FreePort(t) => FreePortKeepsInv(c, s, t);
    case WaitDone(t, wait, now) => WaitDoneKeepsInv(c, s, t, wait, now);
    case Leave(t) => LeaveKeepsInv(c, s, t);
    case Handle(t) => HandleKeepsInv(c, s, t);
    case Use(_, _) => LookKeepsInv(c, s, a);
    case Remove(_, _, _) => LookKeepsInv(c, s, a);
    case Proceed(t, now) =>
      if t in s.calls {
        ContinueKeepsInv(s, t, now);
      }
  }

  lemma {:induction false} RunKeepsInv(c: Limits, s: System, actions: seq<Action>)
    requires Inv(s) && DisciplinedRun(c, s, actions)
    ensures Inv(Run(c, s, actions)) && Range(Run(c, s, actions).l) == Range(s.l)
    decreases |actions|
  {
    if actions == [] {
    } else {
      DoKeepsInv(c, s, actions[0]);
      RunKeepsInv(c, Do(c, s, actions[0]), actions[1..]);
    }
  }

  // ---- Main results ----

  // Whatever is interleaved, a codebase with no spawn in flight is in all tables or in none,
  // and the tables agree on its port: spawning is all-or-nothing and strands nothing.
  lemma AgreementHolds(c: Limits, lo: int, hi: int, actions: seq<Action>, h: Hash)
    requires DisciplinedRun(c, Start(lo, hi), actions)
    requires !InFlight(Run(c, Start(lo, hi), actions), h)
    ensures Settled(ViewOf(Run(c, Start(lo, hi), actions).l, h))
  {
    RunKeepsInv(c, Start(lo, hi), actions);
    SettledUnlessInFlight(Run(c, Start(lo, hi), actions), h);
  }

  // With no spawn in flight the tables have one key set and the free ports are exactly the
  // ones no server holds.
  lemma QuiescentTablesAgree(c: Limits, lo: int, hi: int, actions: seq<Action>)
    requires DisciplinedRun(c, Start(lo, hi), actions)
    requires Run(c, Start(lo, hi), actions).threads == map[]
    ensures var l := Run(c, Start(lo, hi), actions).l;
            && l.ports.Keys == l.execs == l.resv.Keys == Elements(l.lru) == l.lastTouch.Keys
            && l.ports == l.pm.portOf
            && (forall g, h | g in l.ports && h in l.ports && g != h :: l.ports[g] != l.ports[h])
            && l.pm.available == PortRange(lo, hi) - l.ports.Values
  {
    RunKeepsInv(c, Start(lo, hi), actions);
    var l := Run(c, Start(lo, hi), actions).l;
    assert forall h :: Settled(ViewOf(l, h));
    SettledTablesAgree(l);
    HeldPortsAreSessions(l);
  }

  lemma HeldPortsAreSessions(l: Local)
    requires ValidPorts(l.pm) && l.ports == l.pm.portOf
    ensures forall g, h | g in l.ports && h in l.ports && g != h :: l.ports[g] != l.ports[h]
    ensures l.pm.available == PortRange(l.pm.lo, l.pm.hi) - l.ports.Values
  {
    forall q ensures q in l.pm.sessionOf <==> q in l.ports.Values {
      if q in l.pm.sessionOf {
        assert l.ports[l.pm.sessionOf[q]] == q;
      }
    }
  }

  lemma SettledTablesAgree(l: Local)
    requires forall h :: Settled(ViewOf(l, h))
    ensures l.ports.Keys == l.execs == l.resv.Keys == Elements(l.lru) == l.lastTouch.Keys
    ensures l.ports == l.pm.portOf
  {
    forall h ensures (h in l.ports <==> h in l.execs) && (h in l.ports <==> h in l.resv)
                  && (h in l.ports <==> h in l.lru) && (h in l.ports <==> h in l.lastTouch)
                  && (h in l.ports <==> h in l.pm.portOf)
                  && (h in l.ports ==> l.ports[h] == l.pm.portOf[h])
    {
      assert Settled(ViewOf(l, h));
    }
    assert l.ports == l.pm.portOf;
  }
}
