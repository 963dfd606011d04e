/** One admission in Redis pool mode as the imperative code runs it: the two eviction loops of
    _make_room, the allocation and the claim on a RedisPoolStore. With nobody else writing it
    does exactly what the steps of PoolProtocol do. */
module PoolAdmission {
  import opened Basics
  import opened PoolStores
  import opened PoolProtocol

  // The ledger once the lock holder has run to the end from the given phase by itself.
  ghost function Alone(c: Config, l: Ledger, ph: Phase, now: int): Ledger
    requires Inv(c, System(l, Held(ph)))
    decreases Rank(c, ph)
  {
    AdvanceKeepsInv(c, l, ph, now);
    AdvanceLowersRank(c, l, ph, now);
    var s := AdvancePhase(c, l, ph, now);
    if s.lock.Free? then s.ledger else Alone(c, s.ledger, s.lock.phase, now)
  }

  // One step of the way does not change where it ends.
  lemma AloneStep(c: Config, l: Ledger, ph: Phase, now: int)
    requires Inv(c, System(l, Held(ph)))
    ensures var s := AdvancePhase(c, l, ph, now);
            Inv(c, s) && Alone(c, l, ph, now) == if s.lock.Free? then s.ledger else Alone(c, s.ledger, s.lock.phase, now)
  {
    AdvanceKeepsInv(c, l, ph, now);
  }

  // Running alone is one of the runs of the protocol, so what holds of all runs holds of it.
  lemma AloneIsARun(c: Config, l: Ledger, ph: Phase, now: int) returns (actions: seq<Action>)
    requires Inv(c, System(l, Held(ph)))
    ensures Run(c, System(l, Held(ph)), actions) == System(Alone(c, l, ph, now), Free)
    decreases Rank(c, ph)
  {
    AloneStep(c, l, ph, now);
    AdvanceLowersRank(c, l, ph, now);
    var s := AdvancePhase(c, l, ph, now);
    if s.lock.Free? {
      actions := [Advance(now)];
      assert Run(c, s, []) == s && actions[1..] == [];
    } else {
      var rest := AloneIsARun(c, s.ledger, s.lock.phase, now);
      actions := [Advance(now)] + rest;
      assert actions[1..] == rest;
    }
  }

  // Over budget with a victim left: it goes, and the test is made again.
  lemma BudgetRound(c: Config, l: Ledger, h: Hash, mb: nat, seen: set<Hash>, now: int)
    requires Inv(c, System(l, Held(BudgetTest(h, mb, seen)))) && c.budget > 0 && Total(l.resv) + mb > c.budget
    requires OldestIn(l.lru, seen).Some?
    ensures var v := OldestIn(l.lru, seen).value;
            && v in c.known - seen
            && Inv(c, System(l.Release(v), Held(BudgetTest(h, mb, seen + {v}))))
            && Alone(c, l, BudgetTest(h, mb, seen), now) == Alone(c, l.Release(v), BudgetTest(h, mb, seen + {v}), now)
  {
    var v := OldestIn(l.lru, seen).value;
    VictimIsKnown(c, l, seen);
    AloneStep(c, l, BudgetTest(h, mb, seen), now);
    AloneStep(c, l, BudgetPick(h, mb, seen), now);
    AloneStep(c, l, BudgetEvict(h, mb, seen + {v}, v), now);
  }

  // The budget loop ends within the budget or without a victim, and the ports are next.
  lemma BudgetDone(c: Config, l: Ledger, h: Hash, mb: nat, seen: set<Hash>, now: int)
    requires Inv(c, System(l, Held(BudgetTest(h, mb, seen))))
    requires c.budget <= 0 || Total(l.resv) + mb <= c.budget || OldestIn(l.lru, seen) == None
    ensures Inv(c, System(l, Held(PortTest(h, mb, seen))))
    ensures Alone(c, l, BudgetTest(h, mb, seen), now) == Alone(c, l, PortTest(h, mb, seen), now)
  {
    AloneStep(c, l, BudgetTest(h, mb, seen), now);
    if c.budget > 0 && Total(l.resv) + mb > c.budget {
      AloneStep(c, l, BudgetPick(h, mb, seen), now);
    }
  }

  function AfterScan(h: Hash, mb: nat, seen: set<Hash>, port: Option<int>): Phase {
    if port == None then PortPick(h, mb, seen) else Allocating(h, mb)
  }

  lemma ScanStep(c: Config, l: Ledger, h: Hash, mb: nat, seen: set<Hash>, now: int)
    requires Inv(c, System(l, Held(PortTest(h, mb, seen))))
    ensures var (l', port) := l.AllocatePort(c.lo, c.hi);
            && Inv(c, System(l', Held(AfterScan(h, mb, seen, port))))
            && Alone(c, l, PortTest(h, mb, seen), now) == Alone(c, l', AfterScan(h, mb, seen, port), now)
  {
    AloneStep(c, l, PortTest(h, mb, seen), now);
  }

  // No port free with a victim left: it goes, and the scan is made again.
  lemma PortRound(c: Config, l: Ledger, h: Hash, mb: nat, seen: set<Hash>, now: int)
    requires Inv(c, System(l, Held(PortPick(h, mb, seen)))) && OldestIn(l.lru, seen).Some?
    ensures var v := OldestIn(l.lru, seen).value;
            && v in c.known - seen
            && Inv(c, System(l.Release(v), Held(PortTest(h, mb, seen + {v}))))
            && Alone(c, l, PortPick(h, mb, seen), now) == Alone(c, l.Release(v), PortTest(h, mb, seen + {v}), now)
  {
    var v := OldestIn(l.lru, seen).value;
    VictimIsKnown(c, l, seen);
    AloneStep(c, l, PortPick(h, mb, seen), now);
    AloneStep(c, l, PortEvict(h, mb, seen + {v}, v), now);
  }

  ghost predicate Distinct(s: seq<Hash>) {
    forall i, j | 0 <= i < j < |s| :: s[i] != s[j]
  }

  function Victims(evicted: seq<Hash>): set<Hash> {
    set v | v in evicted
  }

  lemma OneMoreVictim(evicted: seq<Hash>, v: Hash)
    requires Distinct(evicted) && v !in Victims(evicted)
    ensures Distinct(evicted + [v]) && Victims(evicted + [v]) == Victims(evicted) + {v}
  {
    assert forall x | x in evicted :: x in Victims(evicted);
  }

  lemma DistinctTogether(a: seq<Hash>, b: seq<Hash>)
    requires Distinct(a) && Distinct(b) && Victims(a) !! Victims(b)
    ensures Distinct(a + b)
  {
    forall i, j | 0 <= i < j < |a + b| ensures (a + b)[i] != (a + b)[j] {
      if i < |a| <= j {
        assert (a + b)[i] in Victims(a) && (a + b)[j] in Victims(b);
      }
    }
  }

  // Lists the victims, none of them twice; their containers are removed off the lock.
  method EvictToBudget(store: RedisPoolStore, c: Config, h: Hash, mb: nat, ghost now: int)
    returns (seen: set<Hash>, evicted: seq<Hash>)
    requires Inv(c, System(store.State(), Held(BudgetTest(h, mb, {}))))
    modifies store
    ensures Inv(c, System(store.State(), Held(PortTest(h, mb, seen))))
    ensures Alone(c, store.State(), PortTest(h, mb, seen), now) == old(Alone(c, store.State(), BudgetTest(h, mb, {}), now))
    ensures Distinct(evicted) && seen == Victims(evicted)
  {
    seen, evicted := {}, [];
    ghost var end := Alone(c, store.State(), BudgetTest(h, mb, {}), now);
    if c.budget > 0 {
      var total := SumValues(store.reservations);
      while total + mb > c.budget
        invariant Inv(c, System(store.State(), Held(BudgetTest(h, mb, seen)))) && total == Total(store.reservations)
        invariant Alone(c, store.State(), BudgetTest(h, mb, seen), now) == end
        invariant Distinct(evicted) && seen == Victims(evicted)
        decreases c.known - seen
      {
        var victim := store.Oldest(seen);
        if victim == None {
          break;
        }
        BudgetRound(c, store.State(), h, mb, seen, now);
        OneMoreVictim(evicted, victim.value);
        seen := seen + {victim.value};
        evicted := evicted + [victim.value];
        store.Release(victim.value);
        total := SumValues(store.reservations);
      }
    }
    BudgetDone(c, store.State(), h, mb, seen, now);
  }

  method EvictToPort(store: RedisPoolStore, c: Config, h: Hash, mb: nat, already: set<Hash>, ghost now: int)
    returns (evicted: seq<Hash>)
    requires Inv(c, System(store.State(), Held(PortTest(h, mb, already))))
    modifies store
    ensures Inv(c, System(store.State(), Held(Allocating(h, mb))))
    ensures Alone(c, store.State(), Allocating(h, mb), now) == old(Alone(c, store.State(), PortTest(h, mb, already), now))
    ensures Distinct(evicted) && already !! Victims(evicted)
  {
    var seen := already;
    evicted := [];
    ghost var end := Alone(c, store.State(), PortTest(h, mb, already), now);
    ScanStep(c, store.State(), h, mb, seen, now);
    var port := store.AllocatePort(c.lo, c.hi);
    while port == None
      invariant Inv(c, System(store.State(), Held(AfterScan(h, mb, seen, port))))
      invariant Alone(c, store.State(), AfterScan(h, mb, seen, port), now) == end
      invariant Distinct(evicted) && seen == already + Victims(evicted) && already !! Victims(evicted)
      decreases c.known - seen, port == None
    {
      var victim := store.Oldest(seen);
      if victim == None {
        AloneStep(c, store.State(), PortPick(h, mb, seen), now);
        break;
      }
      PortRound(c, store.State(), h, mb, seen, now);
      OneMoreVictim(evicted, victim.value);
      seen := seen + {victim.value};
      evicted := evicted + [victim.value];
      store.Release(victim.value);
      ScanStep(c, store.State(), h, mb, seen, now);
      port := store.AllocatePort(c.lo, c.hi);
    }
  }

  // The admit-locked section: make room, allocate, claim. None is the missing-port error.
  method Admit(store: RedisPoolStore, c: Config, h: Hash, mb: nat, now: int)
    returns (port: Option<int>, evicted: seq<Hash>)
    requires Inv(c, System(store.State(), Held(BudgetTest(h, mb, {}))))
    modifies store
    ensures store.State() == old(Alone(c, store.State(), BudgetTest(h, mb, {}), now))
    ensures Inv(c, System(store.State(), Free))
    ensures port == None <==> c.lo > c.hi
    ensures port.Some? ==> h in store.registry && store.registry[h] == port.value && store.reservations[h] == mb
    ensures Distinct(evicted)
  {
    var seen, forBudget := EvictToBudget(store, c, h, mb, now);
    var forPort := EvictToPort(store, c, h, mb, seen, now);
    evicted := forBudget + forPort;
    DistinctTogether(forBudget, forPort);
    AloneStep(c, store.State(), Allocating(h, mb), now);
    port := store.AllocatePort(c.lo, c.hi);
    if port == None {
      AloneStep(c, store.State(), NoPort, now);
      return;
    }
    AloneStep(c, store.State(), Claiming(h, mb, port.value), now);
    store.Claim(h, port.value, mb, now);
  }
}
