/** What the in-process order of eviction goes by: the steps in which a codebase was used, over
    every interleaving of the calls of src/services/joern_server_manager.py. */
module ServerUse {
  import opened Basics
  import opened JoernServers
  import opened ServerAgreement

  // When the step uses the codebase: its server has become ready, or a client touches it.
  function UsedAt(s: System, a: Action, h: Hash): Option<int> {
    match a
    case WaitDone(t, wait, now) =>
      if t in s.threads && s.threads[t].Waiting? && s.threads[t].h == h && wait == Ready then Some(now) else None
    case Proceed(t, now) =>
      if t in s.calls && s.calls[t].Touching? && s.calls[t].h == h then Some(now) else None
    case _ => None
  }

  // The number of a step and its clock reading; before any use, the step is -1.
  datatype Stamp = Stamp(step: int, now: int)

  // The last step of a run from the start that used the codebase.
  ghost function LastUse(c: Limits, lo: int, hi: int, actions: seq<Action>, h: Hash): (u: Stamp)
    ensures u.step < |actions|
    decreases |actions|
  {
    if actions == [] then Stamp(-1, 0)
    else
      var n := |actions| - 1;
      var used := UsedAt(Run(c, Start(lo, hi), actions[..n]), actions[n], h);
      if used.Some? then Stamp(n, used.value) else LastUse(c, lo, hi, actions[..n], h)
  }

  ghost predicate Ascending(s: seq<Hash>, use: Hash -> Stamp) {
    forall i, j | 0 <= i < j < |s| :: use(s[i]).step < use(s[j]).step
  }

  // The order goes by last use, and each codebase in it carries the reading of that use.
  ghost predicate ByUse(l: Local, use: Hash -> Stamp) {
    && Ascending(l.lru, use)
    && (forall h | h in l.lru :: use(h).step >= 0 && h in l.lastTouch && l.lastTouch[h] == use(h).now)
  }

  lemma AscendingCons(h: Hash, s: seq<Hash>, use: Hash -> Stamp)
    requires Ascending(s, use) && forall g | g in s :: use(h).step < use(g).step
    ensures Ascending([h] + s, use)
  {
    var r := [h] + s;
    forall i, j | 0 <= i < j < |r| ensures use(r[i]).step < use(r[j]).step {
      assert r[j] == s[j - 1] && s[j - 1] in s;
    }
  }

  lemma AscendingSnoc(s: seq<Hash>, h: Hash, use: Hash -> Stamp)
    requires Ascending(s, use) && forall g | g in s :: use(g).step < use(h).step
    ensures Ascending(s + [h], use)
  {
    var r := s + [h];
    forall i, j | 0 <= i < j < |r| ensures use(r[i]).step < use(r[j]).step {
      assert r[i] == s[i] && s[i] in s;
    }
  }

  lemma {:induction false} DropKeepsOrder(s: seq<Hash>, h: Hash, use: Hash -> Stamp)
    requires Ascending(s, use)
    ensures Ascending(Drop(s, h), use)
  {
    if s == [] {
    } else {
      DropKeepsOrder(s[1..], h, use);
      if s[0] != h {
        forall g | g in Drop(s[1..], h) ensures use(s[0]).step < use(g).step {
          var i :| 0 <= i < |s[1..]| && s[1..][i] == g;
          assert s[i + 1] == g;
        }
        AscendingCons(s[0], Drop(s[1..], h), use);
      }
    }
  }

  // The codebase is taken out of the order, and what else changes is in other tables.
  lemma DroppedByUse(l: Local, r: Local, h: Hash, use: Hash -> Stamp)
    requires ByUse(l, use) && r.lru == Drop(l.lru, h) && r.lastTouch == l.lastTouch - {h}
    ensures ByUse(r, use)
  {
    DropKeepsOrder(l.lru, h, use);
  }

  lemma RemovedByUse(l: Local, h: Hash, terminated: bool, use: Hash -> Stamp)
    requires ByUse(l, use)
    ensures ByUse(l.Cleanup(h), use) && ByUse(l.EvictTail(h, terminated), use) && ByUse(l.Evict(h), use)
  {
    DroppedByUse(l, l.Cleanup(h), h, use);
    DroppedByUse(l, l.EvictTail(h, terminated), h, use);
    DroppedByUse(l.Terminate(h), l.Evict(h), h, use);
  }

  lemma {:induction false} BudgetByUse(l: Local, needed: nat, budget: int, use: Hash -> Stamp)
    requires ByUse(l, use)
    ensures ByUse(l.EvictForBudget(needed, budget), use)
    decreases |l.lru|
  {
    if l.lru == [] || Total(l.resv) + needed <= budget {
    } else {
      RemovedByUse(l, l.lru[0], true, use);
      EvictShortens(l);
      BudgetByUse(l.Evict(l.lru[0]), needed, budget, use);
    }
  }

  lemma {:induction false} PortByUse(l: Local, use: Hash -> Stamp)
    requires ByUse(l, use)
    ensures ByUse(l.EvictForPort(), use)
    decreases |l.lru|
  {
    if l.lru == [] || |l.pm.available| > 0 {
    } else {
      RemovedByUse(l, l.lru[0], true, use);
      EvictShortens(l);
      PortByUse(l.Evict(l.lru[0]), use);
    }
  }

  lemma EvictShortens(l: Local)
    requires l.lru != []
    ensures |l.Evict(l.lru[0]).lru| < |l.lru|
  {
  }

  lemma RoomByUse(c: Limits, l: Local, needed: nat, pressure: bool, use: Hash -> Stamp)
    requires ByUse(l, use)
    ensures ByUse(l.MakeRoom(c, needed, pressure), use)
  {
    if c.budget > 0 {
      BudgetByUse(l, needed, c.budget, use);
      PortByUse(l.EvictForBudget(needed, c.budget), use);
    } else if l.lru != [] {
      RemovedByUse(l, l.lru[0], true, use);
    }
    var m := l.EvictToLimits(c, needed);
    if m.lru != [] {
      RemovedByUse(m, m.lru[0], true, use);
    }
  }

  lemma SpawnByUse(c: Limits, l: Local, h: Hash, mb: nat, pressure: bool, use: Hash -> Stamp)
    requires ByUse(l, use)
    ensures ByUse(l.BeginSpawn(c, h, mb, pressure).0, use)
  {
    RemovedByUse(l, h, true, use);
    RoomByUse(c, l.ClearStale(h), mb, pressure, use);
  }

  // A use puts its codebase at the end and leaves the others in their order.
  lemma TouchByUse(l: Local, h: Hash, now: int, use: Hash -> Stamp, use': Hash -> Stamp)
    requires ByUse(l, use) && (forall g | g != h :: use'(g) == use(g))
    requires use'(h).now == now && use'(h).step >= 0 && forall g | g in l.lru :: use(g).step < use'(h).step
    ensures ByUse(l.Touch(h, now), use')
  {
    var r := Drop(l.lru, h);
    DropKeepsOrder(l.lru, h, use);
    assert Ascending(r, use') by {
      assert forall i | 0 <= i < |r| :: r[i] in r;
    }
    AscendingSnoc(r, h, use');
  }

  lemma SameByUse(l: Local, use: Hash -> Stamp, use': Hash -> Stamp)
    requires ByUse(l, use) && forall g :: use'(g) == use(g)
    ensures ByUse(l, use')
  {
  }

  // Steps that use no codebase.
  lemma IdleStepByUse(c: Limits, s: System, a: Action, use: Hash -> Stamp)
    requires ByUse(s.l, use) && forall g :: UsedAt(s, a, g) == None
    ensures ByUse(Do(c, s, a).l, use)
  {
    match a
    case Spawn(_, h, mb, _, pressure) => SpawnByUse(c, s.l, h, mb, pressure, use);
    case WaitDone(t, wait, now) =>
      if t in s.threads && s.threads[t].Waiting? {
        assert UsedAt(s, a, s.threads[t].h) == None;
        RemovedByUse(s.l, s.threads[t].h, true, use);
      }
    case Handle(t) =>
      if t in s.threads {
        RemovedByUse(s.l, s.threads[t].h, true, use);
      }
    case Proceed(t, now) =>
      if t in s.calls {
        assert UsedAt(s, a, s.calls[t].h) == None;
        RemovedByUse(s.l, s.calls[t].h, true, use);
        RemovedByUse(s.l, s.calls[t].h, false, use);
      }
    case _ =>
  }

  lemma StepByUse(c: Limits, s: System, a: Action, n: nat, use: Hash -> Stamp, use': Hash -> Stamp)
    requires ByUse(s.l, use) && forall g :: use(g).step < n
    requires forall g :: use'(g) == if UsedAt(s, a, g).Some? then Stamp(n, UsedAt(s, a, g).value) else use(g)
    ensures ByUse(Do(c, s, a).l, use')
  {
    if h :| UsedAt(s, a, h).Some? {
      assert Do(c, s, a).l == s.l.Touch(h, a.now);
      assert forall g | g != h :: UsedAt(s, a, g) == None;
      TouchByUse(s.l, h, a.now, use, use');
    } else {
      IdleStepByUse(c, s, a, use);
      SameByUse(Do(c, s, a).l, use, use');
    }
  }

  lemma {:induction false} RunAppendOne(c: Limits, s: System, actions: seq<Action>, a: Action)
    ensures Run(c, s, actions + [a]) == Do(c, Run(c, s, actions), a)
    decreases |actions|
  {
    if actions == [] {
      assert Run(c, Do(c, s, a), [a][1..]) == Do(c, s, a);
    } else {
      assert (actions + [a])[1..] == actions[1..] + [a];
      RunAppendOne(c, Do(c, s, actions[0]), actions[1..], a);
    }
  }

  ghost function Uses(c: Limits, lo: int, hi: int, actions: seq<Action>): Hash -> Stamp {
    (h: Hash) => LastUse(c, lo, hi, actions, h)
  }

  lemma {:induction false} RunByUse(c: Limits, lo: int, hi: int, actions: seq<Action>)
    ensures ByUse(Run(c, Start(lo, hi), actions).l, Uses(c, lo, hi, actions))
    decreases |actions|
  {
    if actions == [] {
    } else {
      var n := |actions| - 1;
      var rest, a := actions[..n], actions[n];
      assert actions == rest + [a];
      RunAppendOne(c, Start(lo, hi), rest, a);
      RunByUse(c, lo, hi, rest);
      StepByUse(c, Run(c, Start(lo, hi), rest), a, n, Uses(c, lo, hi, rest), Uses(c, lo, hi, actions));
    }
  }

  // In every run the order of eviction is the order of the steps that last used its codebases,
  // each with the reading of that step, so its head is the one not used for longest.
  lemma OrderIsByLastUse(c: Limits, lo: int, hi: int, actions: seq<Action>)
    ensures var l := Run(c, Start(lo, hi), actions).l;
            && (forall i, j | 0 <= i < j < |l.lru| ::
                  LastUse(c, lo, hi, actions, l.lru[i]).step < LastUse(c, lo, hi, actions, l.lru[j]).step)
            && (forall h | h in l.lru ::
                  && LastUse(c, lo, hi, actions, h).step >= 0
                  && h in l.lastTouch && l.lastTouch[h] == LastUse(c, lo, hi, actions, h).now)
  {
    RunByUse(c, lo, hi, actions);
  }
}
