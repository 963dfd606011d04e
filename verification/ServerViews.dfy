/** One codebase's share of the in-process bookkeeping of
    src/services/joern_server_manager.py, and what make-room evicts. */
module ServerViews {
  import opened Basics
  import opened PortManagers
  import opened JoernServers
  import opened Eviction

  // ---- One codebase's share of the state ----

  datatype View = View(
    port: Option<int>, exec: bool, resv: Option<nat>, inLru: bool, touched: bool, held: Option<int>)

  const Absent := View(None, false, None, false, false, None)

  function ViewOf(l: Local, h: Hash): View {
    View(if h in l.ports then Some(l.ports[h]) else None,
         h in l.execs,
         if h in l.resv then Some(l.resv[h]) else None,
         h in l.lru,
         h in l.lastTouch,
         if h in l.pm.portOf then Some(l.pm.portOf[h]) else None)
  }

  // Registered and accounted for, on the port it holds, whether touched yet or not.
  predicate Registered(v: View) {
    v.port.Some? && v.exec && v.resv.Some? && v.held == v.port && v.inLru == v.touched
  }

  // A server that is up is in every table, and the tables agree on its port.
  predicate Running(v: View) {
    Registered(v) && v.inLru
  }

  predicate Settled(v: View) {
    v == Absent || Running(v)
  }

  ghost predicate Unique(s: seq<Hash>) {
    forall i, j | 0 <= i < j < |s| :: s[i] != s[j]
  }

  function Range(l: Local): (int, int) {
    (l.pm.lo, l.pm.hi)
  }

  ghost predicate Sound(l: Local) {
    ValidPorts(l.pm) && Unique(l.lru)
  }

  lemma {:induction false} DropKeepsUnique(s: seq<Hash>, h: Hash)
    requires Unique(s)
    ensures Unique(Drop(s, h))
    ensures s != [] && s[0] == h ==> Drop(s, h) == s[1..]
    ensures h !in s ==> Drop(s, h) == s
  {
    if s == [] {
    } else {
      DropKeepsUnique(s[1..], h);
      assert s == [s[0]] + s[1..] && s[0] !in s[1..];
    }
  }

  // Each basic step changes the share of its own codebase only.
  lemma CleanupView(l: Local, h: Hash)
    requires Sound(l)
    ensures Sound(l.Cleanup(h)) && ViewOf(l.Cleanup(h), h) == Absent
    ensures forall g | g != h :: ViewOf(l.Cleanup(h), g) == ViewOf(l, g)
  {
    ReleaseValid(l.pm, h);
    DropKeepsUnique(l.lru, h);
  }

  lemma TouchView(l: Local, h: Hash, now: int)
    requires Sound(l)
    ensures Sound(l.Touch(h, now))
    ensures ViewOf(l.Touch(h, now), h) == ViewOf(l, h).(inLru := true, touched := true)
    ensures forall g | g != h :: ViewOf(l.Touch(h, now), g) == ViewOf(l, g)
  {
    DropKeepsUnique(l.lru, h);
  }

  lemma EvictView(l: Local, h: Hash)
    requires Sound(l) && (Settled(ViewOf(l, h)))
    ensures Sound(l.Evict(h)) && ViewOf(l.Evict(h), h) == Absent
    ensures forall g | g != h :: ViewOf(l.Evict(h), g) == ViewOf(l, g)
    ensures l.Evict(h).lru == Drop(l.lru, h) && l.Evict(h).resv == l.resv - {h}
    ensures l.Evict(h).spawning == l.spawning && Range(l.Evict(h)) == Range(l)
  {
    CleanupView(l, h);
    DropKeepsUnique(l.lru, h);
    DropKeepsUnique(Drop(l.lru, h), h);
  }

  lemma TailView(l: Local, h: Hash, terminated: bool)
    requires Sound(l)
    ensures var r := l.EvictTail(h, terminated);
            && Sound(r)
            && ViewOf(r, h) == ViewOf(l, h).(resv := None, inLru := false, touched := false,
                                             held := if terminated then ViewOf(l, h).held else None)
            && forall g | g != h :: ViewOf(r, g) == ViewOf(l, g)
  {
    ReleaseValid(l.pm, h);
    DropKeepsUnique(l.lru, h);
  }

  // Whether or not its tables were in step, an evicted codebase keeps no port, no reservation
  // and no place in the order, and all others keep their share.
  lemma EvictionStrandsNothing(l: Local, h: Hash)
    requires Sound(l)
    ensures var v := ViewOf(l.Evict(h), h);
            && v.held == None && v.resv == None && !v.inLru && !v.touched && !v.exec
            && v.port == if h in l.execs then None else ViewOf(l, h).port
    ensures forall g | g != h :: ViewOf(l.Evict(h), g) == ViewOf(l, g)
  {
    CleanupView(l, h);
    TailView(l.Terminate(h), h, h in l.execs);
  }

  // ---- What make-room evicts ----

  ghost predicate LruSettled(l: Local) {
    Sound(l) && forall h | h in l.lru :: Running(ViewOf(l, h))
  }

  // The first k servers of the eviction order are gone, so that a port is free, and nothing
  // else has changed.
  ghost predicate EvictedPrefix(l: Local, r: Local, k: nat) {
    && k <= |l.lru|
    && r.lru == l.lru[k..]
    && r.resv == l.resv - Elements(l.lru[..k])
    && r.spawning == l.spawning && r.evictions == l.evictions + k
    && Range(r) == Range(l)
    && (if k == 0 then r == l else r.pm.available != {})
    && (forall h :: ViewOf(r, h) == if h in l.lru[..k] then Absent else ViewOf(l, h))
    && LruSettled(r)
  }

  lemma EvictFirst(l: Local)
    requires LruSettled(l) && l.lru != []
    ensures EvictedPrefix(l, l.Evict(l.lru[0]), 1)
  {
    EvictView(l, l.lru[0]);
    DropKeepsUnique(l.lru, l.lru[0]);
    assert Elements(l.lru[..1]) == {l.lru[0]};
    assert Running(ViewOf(l, l.lru[0]));
    assert l.pm.portOf[l.lru[0]] in l.Evict(l.lru[0]).pm.available;
  }

  lemma PrefixThenPrefix(l: Local, m: Local, r: Local, j: nat, k: nat)
    requires EvictedPrefix(l, m, j) && EvictedPrefix(m, r, k)
    ensures EvictedPrefix(l, r, j + k)
  {
    assert l.lru[..j + k] == l.lru[..j] + m.lru[..k];
    assert Elements(l.lru[..j + k]) == Elements(l.lru[..j]) + Elements(m.lru[..k]);
  }

  lemma PrefixOfNone(l: Local)
    requires LruSettled(l)
    ensures EvictedPrefix(l, l, 0)
  {
    assert l.lru[..0] == [] && Elements([]) == {};
    assert l.resv - {} == l.resv;
  }

  lemma NoneForBudget(l: Local, needed: nat, budget: int)
    requires LruSettled(l) && (l.lru == [] || Total(l.resv) + needed <= budget)
    ensures EvictedPrefix(l, l.EvictForBudget(needed, budget), 0)
    ensures Shortest(l.lru, l.resv, 0, needed, budget)
  {
    PrefixOfNone(l);
    NoneIsShortest(l.lru, l.resv, needed, budget);
  }

  // The budget loop evicts the shortest prefix of the eviction order that makes the
  // reservation fit, and stops over budget only with nothing left to evict.
  lemma {:induction false} BudgetEvictsShortestPrefix(l: Local, needed: nat, budget: int) returns (k: nat)
    requires LruSettled(l)
    ensures EvictedPrefix(l, l.EvictForBudget(needed, budget), k)
    ensures Shortest(l.lru, l.resv, k, needed, budget)
    decreases |l.lru|
  {
    if l.lru == [] || Total(l.resv) + needed <= budget {
      k := 0;
      NoneForBudget(l, needed, budget);
    } else {
      FirstGone(l);
      var k' := BudgetEvictsShortestPrefix(l.Evict(l.lru[0]), needed, budget);
      k := k' + 1;
      FirstForBudget(l, needed, budget, k', k);
    }
  }

  lemma FirstGone(l: Local)
    requires LruSettled(l) && l.lru != []
    ensures LruSettled(l.Evict(l.lru[0])) && |l.Evict(l.lru[0]).lru| < |l.lru|
  {
    EvictFirst(l);
  }

  lemma FirstForBudget(l: Local, needed: nat, budget: int, k': nat, k: nat)
    requires LruSettled(l) && l.lru != [] && Total(l.resv) + needed > budget && k == k' + 1
    requires var m := l.Evict(l.lru[0]);
             EvictedPrefix(m, m.EvictForBudget(needed, budget), k') && Shortest(m.lru, m.resv, k', needed, budget)
    ensures EvictedPrefix(l, l.EvictForBudget(needed, budget), k)
    ensures Shortest(l.lru, l.resv, k, needed, budget)
  {
    EvictFirst(l);
    OneMoreForBudget(l, needed, budget, k');
  }

  lemma OneMoreForBudget(l: Local, needed: nat, budget: int, k: nat)
    requires l.lru != [] && Total(l.resv) + needed > budget && EvictedPrefix(l, l.Evict(l.lru[0]), 1)
    requires var m := l.Evict(l.lru[0]);
             EvictedPrefix(m, m.EvictForBudget(needed, budget), k) && Shortest(m.lru, m.resv, k, needed, budget)
    ensures EvictedPrefix(l, l.EvictForBudget(needed, budget), k + 1)
    ensures Shortest(l.lru, l.resv, k + 1, needed, budget)
  {
    var m := l.Evict(l.lru[0]);
    ThenForBudget(l, m, m.EvictForBudget(needed, budget), needed, budget, k);
  }

  lemma ThenForBudget(l: Local, m: Local, r: Local, needed: nat, budget: int, k: nat)
    requires l.lru != [] && Total(l.resv) + needed > budget && EvictedPrefix(l, m, 1)
    requires EvictedPrefix(m, r, k) && Shortest(m.lru, m.resv, k, needed, budget)
    ensures EvictedPrefix(l, r, k + 1) && Shortest(l.lru, l.resv, k + 1, needed, budget)
  {
    PrefixThenPrefix(l, m, r, 1, k);
    assert Elements(l.lru[..1]) == {l.lru[0]};
    ShortestWithFirst(l.lru, l.resv, k, needed, budget);
  }

  // The port loop evicts at most one more server, and only when no port is free.
  lemma PortLoopEvictsAtMostOne(l: Local) returns (k: nat)
    requires LruSettled(l)
    ensures EvictedPrefix(l, l.EvictForPort(), k)
    ensures k == if l.pm.available == {} && l.lru != [] then 1 else 0
    ensures l.EvictForPort().pm.available != {} || l.EvictForPort().lru == []
  {
    PrefixOfNone(l);
    if l.pm.available == {} && l.lru != [] {
      var h := l.lru[0];
      var m := l.Evict(h);
      EvictFirst(l);
      assert Running(ViewOf(l, h));
      assert l.pm.portOf[h] in m.pm.available;
      assert m.EvictForPort() == m;
      k := 1;
    } else {
      k := 0;
    }
  }

  ghost predicate HasRoom(l: Local, needed: nat, budget: int) {
    Total(l.resv) + needed <= budget || l.lru == []
  }

  lemma RoomAfterPrefix(l: Local, r: Local, k: nat, needed: nat, budget: int)
    requires EvictedPrefix(l, r, k) && (Fits(l.lru, l.resv, k, needed, budget) || k == |l.lru|)
    ensures HasRoom(r, needed, budget)
  {
  }

  lemma RoomStays(l: Local, r: Local, k: nat, needed: nat, budget: int)
    requires EvictedPrefix(l, r, k) && HasRoom(l, needed, budget)
    ensures HasRoom(r, needed, budget)
  {
    PrefixLowersTotal(l, r, k);
  }

  // Memory-mode room: after the shortest prefix that fits, one more only for a port.
  lemma MemoryRoomEvictsPrefix(l: Local, needed: nat, budget: int) returns (forBudget: nat, evicted: nat)
    requires LruSettled(l)
    ensures var r := l.EvictForBudget(needed, budget).EvictForPort();
            EvictedPrefix(l, r, evicted) && HasRoom(r, needed, budget)
    ensures Shortest(l.lru, l.resv, forBudget, needed, budget)
    ensures evicted == forBudget + if forBudget == 0 && l.pm.available == {} && l.lru != [] then 1 else 0
  {
    forBudget := BudgetEvictsShortestPrefix(l, needed, budget);
    evicted := PortAfter(l, l.EvictForBudget(needed, budget), forBudget, needed, budget);
  }

  lemma PortAfter(l: Local, b: Local, forBudget: nat, needed: nat, budget: int) returns (evicted: nat)
    requires EvictedPrefix(l, b, forBudget) && Shortest(l.lru, l.resv, forBudget, needed, budget)
    ensures EvictedPrefix(l, b.EvictForPort(), evicted) && HasRoom(b.EvictForPort(), needed, budget)
    ensures evicted == forBudget + if forBudget == 0 && l.pm.available == {} && l.lru != [] then 1 else 0
  {
    var p := PortLoopEvictsAtMostOne(b);
    ThenForPort(l, b, b.EvictForPort(), forBudget, p, needed, budget);
    evicted := forBudget + p;
  }

  lemma ThenForPort(l: Local, b: Local, r: Local, forBudget: nat, p: nat, needed: nat, budget: int)
    requires EvictedPrefix(l, b, forBudget) && Shortest(l.lru, l.resv, forBudget, needed, budget) && EvictedPrefix(b, r, p)
    ensures EvictedPrefix(l, r, forBudget + p) && HasRoom(r, needed, budget)
  {
    PrefixThenPrefix(l, b, r, forBudget, p);
    RoomAfterPrefix(l, b, forBudget, needed, budget);
    RoomStays(b, r, p, needed, budget);
  }

  lemma PressureEvictsAtMostOne(l: Local, pressure: bool) returns (k: nat)
    requires LruSettled(l)
    ensures EvictedPrefix(l, l.EvictUnderPressure(pressure), k)
    ensures k == if pressure && l.lru != [] then 1 else 0
  {
    if pressure && l.lru != [] {
      EvictFirst(l);
      k := 1;
    } else {
      PrefixOfNone(l);
      k := 0;
    }
  }

  lemma LimitsEvictPrefix(c: Limits, l: Local, needed: nat) returns (forBudget: nat, evicted: nat)
    requires LruSettled(l)
    ensures EvictedPrefix(l, l.EvictToLimits(c, needed), evicted)
    ensures c.budget > 0 ==>
              && HasRoom(l.EvictToLimits(c, needed), needed, c.budget)
              && Shortest(l.lru, l.resv, forBudget, needed, c.budget)
              && evicted == forBudget + if forBudget == 0 && l.pm.available == {} && l.lru != [] then 1 else 0
    ensures c.budget <= 0 ==> evicted == if |l.ports| >= c.maxActive && l.lru != [] then 1 else 0
  {
    forBudget := 0;
    if c.budget > 0 {
      forBudget, evicted := MemoryRoomEvictsPrefix(l, needed, c.budget);
    } else if |l.ports| >= c.maxActive && l.lru != [] {
      EvictFirst(l);
      evicted := 1;
    } else {
      PrefixOfNone(l);
      evicted := 0;
    }
  }

  // Make-room as a whole, in both modes. Memory mode evicts the shortest prefix that fits the
  // budget, and one more only when that is none and no port is free; count mode one server
  // exactly when the cap is reached. Memory pressure takes one more if there is one.
  lemma MakeRoomEvictsPrefix(c: Limits, l: Local, needed: nat, pressure: bool)
    returns (forBudget: nat, forLimits: nat, evicted: nat)
    requires LruSettled(l)
    ensures EvictedPrefix(l, l.MakeRoom(c, needed, pressure), evicted)
    ensures c.budget > 0 ==>
              && HasRoom(l.MakeRoom(c, needed, pressure), needed, c.budget)
              && Shortest(l.lru, l.resv, forBudget, needed, c.budget)
              && forLimits == forBudget + if forBudget == 0 && l.pm.available == {} && l.lru != [] then 1 else 0
    ensures c.budget <= 0 ==> forLimits == if |l.ports| >= c.maxActive && l.lru != [] then 1 else 0
    ensures evicted == forLimits + if pressure && forLimits < |l.lru| then 1 else 0
  {
    forBudget, forLimits := LimitsEvictPrefix(c, l, needed);
    evicted := PressureAfter(l, l.EvictToLimits(c, needed), forLimits, pressure, needed, c.budget);
  }

  lemma PressureAfter(l: Local, m: Local, n: nat, pressure: bool, needed: nat, budget: int) returns (evicted: nat)
    requires EvictedPrefix(l, m, n)
    ensures EvictedPrefix(l, m.EvictUnderPressure(pressure), evicted)
    ensures evicted == n + if pressure && n < |l.lru| then 1 else 0
    ensures HasRoom(m, needed, budget) ==> HasRoom(m.EvictUnderPressure(pressure), needed, budget)
  {
    var k := PressureEvictsAtMostOne(m, pressure);
    ThenPressure(l, m, m.EvictUnderPressure(pressure), n, k, needed, budget);
    evicted := n + k;
  }

  lemma ThenPressure(l: Local, m: Local, r: Local, n: nat, k: nat, needed: nat, budget: int)
    requires EvictedPrefix(l, m, n) && EvictedPrefix(m, r, k)
    ensures EvictedPrefix(l, r, n + k) && (HasRoom(m, needed, budget) ==> HasRoom(r, needed, budget))
  {
    PrefixThenPrefix(l, m, r, n, k);
    if HasRoom(m, needed, budget) {
      RoomStays(m, r, k, needed, budget);
    }
  }

  lemma {:induction false} TotalWithoutSet(m: map<Hash, nat>, s: seq<Hash>)
    ensures Total(m - Elements(s)) <= Total(m)
    decreases |s|
  {
    if s == [] {
      assert m - Elements(s) == m;
    } else {
      TotalWithoutSet(m - {s[0]}, s[1..]);
      TotalRemove(m, s[0]);
      assert Elements(s) == {s[0]} + Elements(s[1..]);
      assert m - Elements(s) == m - {s[0]} - Elements(s[1..]);
    }
  }

  lemma PrefixLowersTotal(l: Local, r: Local, k: nat)
    requires EvictedPrefix(l, r, k)
    ensures Total(r.resv) <= Total(l.resv)
  {
    TotalWithoutSet(l.resv, l.lru[..k]);
  }
}
