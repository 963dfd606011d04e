/** A spawn, a termination or an eviction of src/services/joern_server_manager.py called
    alone: the separately locked steps are the call as a whole. */
module ServerSequential {
  import opened Basics
  import PortManagers
  import opened JoernServers
  import opened ServerViews
  import opened ServerAgreement

  // The steps of a spawn, those that are not reached doing nothing.
  function SpawnSteps(h: Hash, mb: nat, healthy: bool, pressure: bool,
                      start: StartOutcome, wait: WaitOutcome, now: int): seq<Action>
  {
    [Spawn(0, h, mb, healthy, pressure), Proceed(0, now), StartDone(0, start), FreePort(0),
     WaitDone(0, wait, now), Leave(0), Handle(0)]
  }

  // What remains of a spawn of thread t, to its end.
  ghost function Rest(c: Limits, s: System, t: Thread, start: StartOutcome, wait: WaitOutcome, now: int): System {
    Do(c, Do(c, Do(c, Do(c, Do(c, s, StartDone(t, start)), FreePort(t)), WaitDone(t, wait, now)), Leave(t)), Handle(t))
  }

  lemma RunCons(c: Limits, s: System, a: Action, rest: seq<Action>)
    ensures Run(c, s, [a] + rest) == Run(c, Do(c, s, a), rest)
    ensures Disciplined(c, s, a) && DisciplinedRun(c, Do(c, s, a), rest) ==> DisciplinedRun(c, s, [a] + rest)
  {
    assert ([a] + rest)[1..] == rest;
  }

  lemma RunOfRest(c: Limits, s: System, start: StartOutcome, wait: WaitOutcome, now: int)
    ensures var steps := [StartDone(0, start), FreePort(0), WaitDone(0, wait, now), Leave(0), Handle(0)];
            Run(c, s, steps) == Rest(c, s, 0, start, wait, now) && DisciplinedRun(c, s, steps)
  {
    var s1 := Do(c, s, StartDone(0, start));
    var s2 := Do(c, s1, FreePort(0));
    var s3 := Do(c, s2, WaitDone(0, wait, now));
    var s4 := Do(c, s3, Leave(0));
    RunCons(c, s4, Handle(0), []);
    RunCons(c, s3, Leave(0), [Handle(0)]);
    RunCons(c, s2, WaitDone(0, wait, now), [Leave(0), Handle(0)]);
    RunCons(c, s1, FreePort(0), [WaitDone(0, wait, now), Leave(0), Handle(0)]);
    RunCons(c, s, StartDone(0, start), [FreePort(0), WaitDone(0, wait, now), Leave(0), Handle(0)]);
    assert [Handle(0)] + [] == [Handle(0)] && [Leave(0)] + [Handle(0)] == [Leave(0), Handle(0)];
    assert [WaitDone(0, wait, now)] + [Leave(0), Handle(0)] == [WaitDone(0, wait, now), Leave(0), Handle(0)];
    assert [FreePort(0)] + [WaitDone(0, wait, now), Leave(0), Handle(0)]
        == [FreePort(0), WaitDone(0, wait, now), Leave(0), Handle(0)];
    assert [StartDone(0, start)] + [FreePort(0), WaitDone(0, wait, now), Leave(0), Handle(0)]
        == [StartDone(0, start), FreePort(0), WaitDone(0, wait, now), Leave(0), Handle(0)];
  }

  lemma RunOfSteps(c: Limits, s: System, h: Hash, mb: nat, healthy: bool, pressure: bool,
                   start: StartOutcome, wait: WaitOutcome, now: int)
    requires var a := Spawn(0, h, mb, healthy, pressure);
             Disciplined(c, s, a) && Disciplined(c, Do(c, s, a), Proceed(0, now))
    ensures var steps := SpawnSteps(h, mb, healthy, pressure, start, wait, now);
            var entered := Do(c, Do(c, s, Spawn(0, h, mb, healthy, pressure)), Proceed(0, now));
            Run(c, s, steps) == Rest(c, entered, 0, start, wait, now) && DisciplinedRun(c, s, steps)
  {
    var a := Spawn(0, h, mb, healthy, pressure);
    var s1 := Do(c, s, a);
    var rest := [StartDone(0, start), FreePort(0), WaitDone(0, wait, now), Leave(0), Handle(0)];
    RunOfRest(c, Do(c, s1, Proceed(0, now)), start, wait, now);
    RunCons(c, s1, Proceed(0, now), rest);
    RunCons(c, s, a, [Proceed(0, now)] + rest);
    assert SpawnSteps(h, mb, healthy, pressure, start, wait, now) == [a] + ([Proceed(0, now)] + rest);
  }

  function Idle(l: Local): System {
    System(l, map[], map[])
  }

  function OneThread(l: Local, ph: Phase): System {
    System(l, map[0 := ph], map[])
  }

  // spawn_server called alone does what its steps do with nothing in between.
  lemma SpawnIsItsSteps(c: Limits, l: Local, h: Hash, mb: nat, healthy: bool, pressure: bool,
                        start: StartOutcome, wait: WaitOutcome, now: int)
    ensures Run(c, Idle(l), SpawnSteps(h, mb, healthy, pressure, start, wait, now))
         == Idle(l.Spawn(c, h, mb, healthy, pressure, start, wait, now).0)
    ensures DisciplinedRun(c, Idle(l), SpawnSteps(h, mb, healthy, pressure, start, wait, now))
  {
    RunOfSteps(c, Idle(l), h, mb, healthy, pressure, start, wait, now);
    if FastPath(Idle(l), h, healthy) {
      FastPathSteps(c, l, h, mb, healthy, pressure, start, wait, now);
    } else {
      var (l', port) := l.BeginSpawn(c, h, mb, pressure);
      if port == None {
        StepsOfHandler(c, l', h, start, wait, now);
      } else if start != Up {
        StepsOfFailedStart(c, l', h, port.value, start, wait, now);
      } else {
        StepsOfWait(c, l', h, port.value, wait, now);
      }
    }
  }

  lemma FastPathSteps(c: Limits, l: Local, h: Hash, mb: nat, healthy: bool, pressure: bool,
                      start: StartOutcome, wait: WaitOutcome, now: int)
    requires FastPath(Idle(l), h, healthy)
    ensures Do(c, Do(c, Idle(l), Spawn(0, h, mb, healthy, pressure)), Proceed(0, now)) == Idle(l.Touch(h, now))
    ensures Rest(c, Idle(l.Touch(h, now)), 0, start, wait, now) == Idle(l.Touch(h, now))
  {
    var s := Do(c, Idle(l), Spawn(0, h, mb, healthy, pressure));
    assert s.calls == map[0 := Touching(h, true)] && s.calls - {0} == map[];
  }

  lemma StepsOfHandler(c: Limits, l: Local, h: Hash, start: StartOutcome, wait: WaitOutcome, now: int)
    ensures Rest(c, OneThread(l, Handling(h)), 0, start, wait, now) == Idle(l.Cleanup(h))
  {
    assert OneThread(l, Handling(h)).threads - {0} == map[];
  }

  lemma StepsOfFailedStart(c: Limits, l: Local, h: Hash, port: int, start: StartOutcome, wait: WaitOutcome, now: int)
    requires start != Up
    ensures Rest(c, OneThread(l, Started(h, port)), 0, start, wait, now)
         == Idle(l.StartEnded(h, port, start).EndSpawn(h).Cleanup(h))
  {
    var s := OneThread(l, Started(h, port));
    var l1 := l.StartEnded(h, port, start);
    if start == Missing {
      assert Do(c, s, StartDone(0, start)) == OneThread(l.ReleaseReservation(h), Releasing(h));
      assert Do(c, OneThread(l.ReleaseReservation(h), Releasing(h)), FreePort(0)) == OneThread(l1, Failing(h));
    } else {
      assert Do(c, s, StartDone(0, start)) == OneThread(l1, Failing(h));
    }
    FailedSteps(c, l1, h);
  }

  lemma FailedSteps(c: Limits, l: Local, h: Hash)
    ensures Do(c, Do(c, OneThread(l, Failing(h)), Leave(0)), Handle(0)) == Idle(l.EndSpawn(h).Cleanup(h))
  {
    assert Do(c, OneThread(l, Failing(h)), Leave(0)) == OneThread(l.EndSpawn(h), Handling(h));
    assert OneThread(l.EndSpawn(h), Handling(h)).threads - {0} == map[];
  }

  lemma StepsOfWait(c: Limits, l: Local, h: Hash, port: int, wait: WaitOutcome, now: int)
    ensures var l1 := l.StartEnded(h, port, Up).WaitEnded(h, wait, now).EndSpawn(h);
            Rest(c, OneThread(l, Started(h, port)), 0, Up, wait, now) == Idle(if wait == Ready then l1 else l1.Cleanup(h))
  {
    var l1 := l.StartEnded(h, port, Up);
    assert Do(c, OneThread(l, Started(h, port)), StartDone(0, Up)) == OneThread(l1, Waiting(h, port));
    if wait == Ready {
      ReadySteps(c, l1, h, port, now);
    } else {
      var l2 := l1.WaitEnded(h, wait, now);
      assert Do(c, OneThread(l1, Waiting(h, port)), WaitDone(0, wait, now)) == OneThread(l2, Failing(h));
      FailedSteps(c, l2, h);
    }
  }

  lemma ReadySteps(c: Limits, l: Local, h: Hash, port: int, now: int)
    ensures Do(c, Do(c, Do(c, OneThread(l, Waiting(h, port)), WaitDone(0, Ready, now)), Leave(0)), Handle(0))
         == Idle(l.Touch(h, now).EndSpawn(h))
  {
    var l1 := l.Touch(h, now);
    assert Do(c, OneThread(l, Waiting(h, port)), WaitDone(0, Ready, now)) == OneThread(l1, Finishing(h));
    assert OneThread(l1, Finishing(h)).threads - {0} == map[];
  }

  lemma CleanupLeavesNothing(l: Local, h: Hash)
    ensures ViewOf(l.Cleanup(h), h) == Absent
  {
  }

  // A spawn by itself is all or nothing: it returns the port its server holds in every
  // table, or it leaves the codebase in none of them; and every table still agrees.
  lemma SpawnIsAllOrNothing(c: Limits, l: Local, h: Hash, mb: nat, healthy: bool, pressure: bool,
                            start: StartOutcome, wait: WaitOutcome, now: int)
    requires Sound(l) && l.spawning == {} && forall g :: Settled(ViewOf(l, g))
    ensures var (l', port) := l.Spawn(c, h, mb, healthy, pressure, start, wait, now);
            && Sound(l') && l'.spawning == {} && (forall g :: Settled(ViewOf(l', g)))
            && (if port == None then ViewOf(l', h) == Absent
                else Running(ViewOf(l', h)) && ViewOf(l', h).port == port)
  {
    var steps := SpawnSteps(h, mb, healthy, pressure, start, wait, now);
    SpawnIsItsSteps(c, l, h, mb, healthy, pressure, start, wait, now);
    RunKeepsInv(c, Idle(l), steps);
    var (l', port) := l.Spawn(c, h, mb, healthy, pressure, start, wait, now);
    assert Inv(Idle(l'));
    assert forall g :: !Spawns(Idle(l'), g);
    if port == None {
      FailureLeavesNothing(c, l, h, mb, healthy, pressure, start, wait, now);
    }
  }

  lemma FailureLeavesNothing(c: Limits, l: Local, h: Hash, mb: nat, healthy: bool, pressure: bool,
                             start: StartOutcome, wait: WaitOutcome, now: int)
    requires l.Spawn(c, h, mb, healthy, pressure, start, wait, now).1 == None
    ensures ViewOf(l.Spawn(c, h, mb, healthy, pressure, start, wait, now).0, h) == Absent
  {
    var (s, port) := l.BeginSpawn(c, h, mb, pressure);
    if port == None {
      CleanupLeavesNothing(s, h);
    } else {
      var s' := s.StartEnded(h, port.value, start);
      CleanupLeavesNothing(if start != Up then s'.EndSpawn(h) else s'.WaitEnded(h, wait, now).EndSpawn(h), h);
    }
  }

  // A missing container and a time-out clear the codebase at once, before the spawning mark is
  // dropped; any other error leaves that to the handler.
  lemma FailuresClearAtOnce(c: Limits, s: System, t: Thread, now: int)
    requires Inv(s) && t in s.threads
    ensures var h := s.threads[t].h;
            && (s.threads[t].Started? ==>
                  && ViewOf(Do(c, Do(c, s, StartDone(t, Missing)), FreePort(t)).l, h) == Absent
                  && Do(c, s, StartDone(t, Broken)).l == s.l)
            && (s.threads[t].Waiting? ==>
                  && ViewOf(Do(c, s, WaitDone(t, TimedOut, now)).l, h) == Absent
                  && Do(c, s, WaitDone(t, Raised, now)).l == s.l)
  {
    var h := s.threads[t].h;
    CleanupView(s.l, h);
    PortManagers.ReleaseValid(s.l.pm, h);
    assert PhaseAgrees(ViewOf(s.l, h), s.threads[t]);
  }

  // A termination or an eviction with nothing in between its look-up and its locked steps.
  lemma RemovalIsItsSteps(c: Limits, s: System, t: Thread, h: Hash, evicting: bool, now: int)
    requires !Busy(s, t)
    ensures Do(c, Do(c, Do(c, s, Remove(t, h, evicting)), Proceed(t, now)), Proceed(t, now))
         == s.(l := if evicting then s.l.Evict(h) else s.l.Terminate(h))
  {
    var s1 := Do(c, s, Remove(t, h, evicting));
    assert s1.calls - {t} == s.calls;
    assert t in s1.calls && s1.calls[t].Clearing? && evicting ==>
             s1.calls[t := Dropping(h, true)] - {t} == s.calls;
  }
}
