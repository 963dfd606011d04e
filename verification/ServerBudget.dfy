/** The memory budget of src/services/joern_server_manager.py without Redis: whom admitting one
    server evicts, and what every interleaving of spawns and other calls may reserve. */
module ServerBudget {
  import opened Basics
  import PortManagers
  import opened JoernServers
  import opened Eviction
  import opened ServerViews
  import opened ServerAgreement

  // ---- Admitting one server ----

  // The reservations once a stale entry of the codebase is cleared.
  function ResvWithout(l: Local, h: Hash): map<Hash, nat> {
    if h in l.ports then l.resv - {h} else l.resv
  }

  // Whether a port is free then: the stale entry gives its port back.
  predicate FreePort(l: Local, h: Hash) {
    l.pm.available != {} || (h in l.ports && h in l.pm.portOf)
  }

  lemma ClearedViews(l: Local, h: Hash)
    requires LruSettled(l)
    ensures var m := l.ClearStale(h);
            && LruSettled(m) && m.lru == Drop(l.lru, h) && m.resv == ResvWithout(l, h)
            && m.ports == l.ports - {h} && m.spawning == l.spawning && m.evictions == l.evictions
            && (m.pm.available != {} <==> FreePort(l, h))
            && (h in m.pm.portOf <==> h in l.pm.portOf && h !in l.ports)
  {
    CleanupView(l, h);
    DropKeepsUnique(l.lru, h);
    assert h in l.lru ==> Running(ViewOf(l, h));
    assert h !in l.ports ==> l.ports - {h} == l.ports;
    if h in l.ports && h in l.pm.portOf {
      assert l.pm.portOf[h] in l.Cleanup(h).pm.available;
    }
    assert forall g | g in Drop(l.lru, h) :: g in l.lru && g != h && Running(ViewOf(l, g));
  }

  // How many servers of the order without h an admission evicts. In memory mode the shortest
  // prefix whose going lets the reservation fit, and one more only if that is none and no port
  // is free; in count mode one at the cap; in both one more under memory pressure.
  ghost predicate Victims(c: Limits, l: Local, h: Hash, mb: nat, pressure: bool,
                          forBudget: nat, forLimits: nat, n: nat)
  {
    var order := Drop(l.lru, h);
    && (c.budget > 0 ==>
          && Shortest(order, ResvWithout(l, h), forBudget, mb, c.budget)
          && forLimits == forBudget + if forBudget == 0 && !FreePort(l, h) && order != [] then 1 else 0)
    && (c.budget <= 0 ==> forLimits == if |l.ports - {h}| >= c.maxActive && order != [] then 1 else 0)
    && n == forLimits + (if pressure && forLimits < |order| then 1 else 0)
    && n <= |order|
  }

  // What the admission leaves: it fails exactly when no port has come free, and otherwise
  // reserves the memory asked for and the port it answers.
  ghost predicate Admitted(l: Local, h: Hash, mb: nat, n: nat, r: Local, port: Option<int>) {
    var order := Drop(l.lru, h);
    && n <= |order| && r.lru == order[n..] && r.evictions == l.evictions + n
    && (port == None <==> n == 0 && !FreePort(l, h) && h !in l.pm.portOf)
    && var left := ResvWithout(l, h) - Elements(order[..n]);
       if port == None then r.resv == left
       else r.resv == left[h := mb] && h in r.spawning && h in r.pm.portOf && r.pm.portOf[h] == port.value
  }

  lemma VictimsOfRoom(c: Limits, l: Local, h: Hash, mb: nat, pressure: bool)
    returns (forBudget: nat, forLimits: nat, n: nat)
    requires LruSettled(l)
    ensures Victims(c, l, h, mb, pressure, forBudget, forLimits, n)
    ensures EvictedPrefix(l.ClearStale(h), l.ClearStale(h).MakeRoom(c, mb, pressure), n)
    ensures c.budget > 0 ==> HasRoom(l.ClearStale(h).MakeRoom(c, mb, pressure), mb, c.budget)
  {
    ClearedViews(l, h);
    forBudget, forLimits, n := MakeRoomEvictsPrefix(c, l.ClearStale(h), mb, pressure);
  }

  lemma ReserveAdmits(l: Local, h: Hash, mb: nat, n: nat, room: Local)
    requires LruSettled(l) && EvictedPrefix(l.ClearStale(h), room, n)
    ensures Admitted(l, h, mb, n, room.Reserve(h, mb).0, room.Reserve(h, mb).1)
  {
    ClearedViews(l, h);
    PortManagers.AllocateValid(room.pm, h);
    HeldAfterPrefix(l.ClearStale(h), room, n, h);
  }

  // Eviction takes no port from a codebase that is not in the order.
  lemma HeldAfterPrefix(l: Local, r: Local, n: nat, h: Hash)
    requires EvictedPrefix(l, r, n) && h !in l.lru
    ensures h in r.pm.portOf <==> h in l.pm.portOf
  {
    assert ViewOf(r, h) == ViewOf(l, h);
  }

  // The spawn of a codebase that is not being spawned evicts those servers and no other, and
  // ends within the budget unless nothing was left to evict.
  lemma SpawnMakesRoom(c: Limits, l: Local, h: Hash, mb: nat, pressure: bool)
    returns (forBudget: nat, forLimits: nat, n: nat)
    requires LruSettled(l) && h !in l.spawning
    ensures Victims(c, l, h, mb, pressure, forBudget, forLimits, n)
    ensures var (r, port) := l.BeginSpawn(c, h, mb, pressure);
            && Admitted(l, h, mb, n, r, port)
            && (c.budget > 0 && port.Some? ==> Total(r.resv) <= c.budget || r.lru == [])
  {
    forBudget, forLimits, n := VictimsOfRoom(c, l, h, mb, pressure);
    var room := l.ClearStale(h).MakeRoom(c, mb, pressure);
    assert (forall g | g in l.ClearStale(h).spawning :: g in l.spawning) && room.spawning == l.ClearStale(h).spawning;
    assert l.BeginSpawn(c, h, mb, pressure) == room.Reserve(h, mb);
    ReserveAdmits(l, h, mb, n, room);
    if c.budget > 0 {
      ReservedFits(room, h, mb, c.budget);
    }
  }

  lemma ReservedFits(l: Local, h: Hash, mb: nat, budget: int)
    requires HasRoom(l, mb, budget)
    ensures Total(l.resv[h := mb]) <= budget || l.lru == []
  {
    TotalUpdate(l.resv, h, mb);
    TotalRemove(l.resv, h);
  }

  // ---- Every interleaving ----

  ghost predicate Within(a: map<Hash, nat>, b: map<Hash, nat>) {
    forall g | g in a :: g in b && a[g] == b[g]
  }

  lemma {:induction false} WithinLowersTotal(a: map<Hash, nat>, b: map<Hash, nat>)
    requires Within(a, b)
    ensures Total(a) <= Total(b)
    decreases |a|
  {
    if a == map[] {
    } else {
      var g :| g in a;
      TotalWithout(a, g);
      TotalWithout(b, g);
      WithinLowersTotal(a - {g}, b - {g});
    }
  }

  lemma PrefixIsWithin(l: Local, h: Hash, n: nat)
    requires n <= |Drop(l.lru, h)|
    ensures Within(ResvWithout(l, h) - Elements(Drop(l.lru, h)[..n]), l.resv)
  {
  }

  // Everything reserved belongs to a spawn in flight.
  ghost predicate AllInFlight(s: System) {
    forall g | g in s.l.resv :: InFlight(s, g)
  }

  lemma EmptyOrderMeansInFlight(s: System)
    requires Inv(s) && s.l.lru == []
    ensures AllInFlight(s)
  {
    forall g | g in s.l.resv ensures InFlight(s, g) {
      if !InFlight(s, g) {
        SettledUnlessInFlight(s, g);
      }
    }
  }

  // A step reserves nothing more, or it admits a server within the budget, or everything
  // reserved is then in flight.
  lemma StepReserves(c: Limits, s: System, a: Action)
    requires Inv(s) && Disciplined(c, s, a) && c.budget > 0
    ensures var s' := Do(c, s, a);
            Within(s'.l.resv, s.l.resv) || Total(s'.l.resv) <= c.budget || AllInFlight(s')
  {
    if a.Spawn? && !Busy(s, a.t) && !FastPath(s, a.h, a.healthy) {
      SpawnReserves(c, s, a);
    } else {
      OtherStepReserves(c, s, a);
    }
  }

  lemma OtherStepReserves(c: Limits, s: System, a: Action)
    requires !(a.Spawn? && !Busy(s, a.t) && !FastPath(s, a.h, a.healthy))
    ensures Within(Do(c, s, a).l.resv, s.l.resv)
  {
  }

  lemma SpawnReserves(c: Limits, s: System, a: Action)
    requires Inv(s) && Disciplined(c, s, a) && c.budget > 0
    requires a.Spawn? && !Busy(s, a.t) && !FastPath(s, a.h, a.healthy)
    ensures var s' := Do(c, s, a);
            Within(s'.l.resv, s.l.resv) || Total(s'.l.resv) <= c.budget || AllInFlight(s')
  {
    var s' := Do(c, s, a);
    LruIsSettled(s);
    assert a.h !in s.l.spawning;
    var _, _, n := SpawnMakesRoom(c, s.l, a.h, a.mb, a.pressure);
    PrefixIsWithin(s.l, a.h, n);
    DoKeepsInv(c, s, a);
    if s'.l.lru == [] {
      EmptyOrderMeansInFlight(s');
    }
  }

  lemma {:induction false} RunAppendOne(c: Limits, s: System, actions: seq<Action>, a: Action)
    ensures Run(c, s, actions + [a]) == Do(c, Run(c, s, actions), a)
    ensures DisciplinedRun(c, s, actions + [a]) ==>
              DisciplinedRun(c, s, actions) && Disciplined(c, Run(c, s, actions), a)
    decreases |actions|
  {
    if actions == [] {
      assert [] + [a] == [a] && [a][1..] == [];
    } else {
      assert (actions + [a])[0] == actions[0] && (actions + [a])[1..] == actions[1..] + [a];
      RunAppendOne(c, Do(c, s, actions[0]), actions[1..], a);
    }
  }

  // What is reserved now was reserved after the first k steps, all of it by spawns in flight.
  ghost predicate BootedTogether(c: Limits, lo: int, hi: int, actions: seq<Action>, k: nat) {
    && k <= |actions|
    && Within(Run(c, Start(lo, hi), actions).l.resv, Run(c, Start(lo, hi), actions[..k]).l.resv)
    && AllInFlight(Run(c, Start(lo, hi), actions[..k]))
  }

  ghost predicate BudgetKept(c: Limits, lo: int, hi: int, actions: seq<Action>) {
    || Total(Run(c, Start(lo, hi), actions).l.resv) <= c.budget
    || exists k: nat :: BootedTogether(c, lo, hi, actions, k)
  }

  lemma OneMoreStep(c: Limits, lo: int, hi: int, rest: seq<Action>, a: Action)
    requires BudgetKept(c, lo, hi, rest)
    requires var s, s' := Run(c, Start(lo, hi), rest), Run(c, Start(lo, hi), rest + [a]);
             Within(s'.l.resv, s.l.resv) || Total(s'.l.resv) <= c.budget || AllInFlight(s')
    ensures BudgetKept(c, lo, hi, rest + [a])
  {
    var actions := rest + [a];
    var s, s' := Run(c, Start(lo, hi), rest), Run(c, Start(lo, hi), actions);
    if AllInFlight(s') {
      assert actions[..|actions|] == actions;
      assert BootedTogether(c, lo, hi, actions, |actions|);
    } else if Total(s'.l.resv) > c.budget {
      WithinLowersTotal(s'.l.resv, s.l.resv);
      var k: nat :| BootedTogether(c, lo, hi, rest, k);
      assert actions[..k] == rest[..k];
      assert BootedTogether(c, lo, hi, actions, k);
    }
  }

  // At every moment of every disciplined run the reservations sum to at most the budget, or
  // all of them are of servers that were booting together at some earlier moment, when there
  // was none left to evict for them.
  lemma {:induction false} BudgetHolds(c: Limits, lo: int, hi: int, actions: seq<Action>)
    requires c.budget > 0 && DisciplinedRun(c, Start(lo, hi), actions)
    ensures BudgetKept(c, lo, hi, actions)
    decreases |actions|
  {
    if actions == [] {
    } else {
      var rest, a := actions[..|actions| - 1], actions[|actions| - 1];
      assert actions == rest + [a];
      RunAppendOne(c, Start(lo, hi), rest, a);
      RunKeepsInv(c, Start(lo, hi), rest);
      BudgetHolds(c, lo, hi, rest);
      StepReserves(c, Run(c, Start(lo, hi), rest), a);
      OneMoreStep(c, lo, hi, rest, a);
    }
  }

  // So with one spawn in flight at a time, only one server that alone is too large exceeds it.
  lemma SequentialBudgetHolds(c: Limits, lo: int, hi: int, actions: seq<Action>)
    requires c.budget > 0 && DisciplinedRun(c, Start(lo, hi), actions)
    requires forall k, g, h | 0 <= k <= |actions| && InFlight(Run(c, Start(lo, hi), actions[..k]), g)
                              && InFlight(Run(c, Start(lo, hi), actions[..k]), h) :: g == h
    ensures var resv := Run(c, Start(lo, hi), actions).l.resv;
            Total(resv) <= c.budget || exists h :: h in resv && resv == map[h := resv[h]]
  {
    BudgetHolds(c, lo, hi, actions);
    var resv := Run(c, Start(lo, hi), actions).l.resv;
    if Total(resv) > c.budget {
      var k: nat :| BootedTogether(c, lo, hi, actions, k);
      var h :| h in resv;
      assert forall g | g in resv :: g == h;
      assert resv == map[h := resv[h]];
    }
  }
}
