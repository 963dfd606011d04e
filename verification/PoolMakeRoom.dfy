/** Whom an undisturbed admission in Redis mode evicts: only as many as budget and port range
    need, the least recently used first. */
module PoolMakeRoom {
  import opened Basics
  import opened Eviction
  import opened PoolStores
  import opened PoolProtocol
  import opened PoolAdmission

  function Order(z: ZSet): (s: seq<Hash>)
    ensures |s| == |z| && forall i | 0 <= i < |z| :: s[i] == z[i].member
  {
    seq(|z|, i requires 0 <= i < |z| => z[i].member)
  }

  // The ledger without the first k members of the order.
  function Without(l: Ledger, k: nat): Ledger
    requires k <= |l.lru|
  {
    var gone := Elements(Order(l.lru)[..k]);
    l.(resv := l.resv - gone, reg := l.reg - gone, worker := l.worker - gone, lru := l.lru[k..])
  }

  lemma {:induction false} NothingToRemove(z: ZSet, m: Hash)
    requires forall e | e in z :: e.member != m
    ensures ZRem(z, m) == z
  {
    if z == [] {
    } else {
      assert z[0] in z && z == [z[0]] + z[1..];
      NothingToRemove(z[1..], m);
    }
  }

  lemma HeadIsOldest(z: ZSet, seen: set<Hash>)
    requires Sorted(z) && seen !! Members(z)
    ensures OldestIn(z, seen) == if z == [] then None else Some(z[0].member)
    ensures z != [] ==> ZRem(z, z[0].member) == z[1..] && Members(z[1..]) == Members(z) - {z[0].member}
  {
    if z != [] {
      assert z[0].member in Members(z) && z == [z[0]] + z[1..];
      forall e | e in z[1..] ensures e.member != z[0].member {
        var i :| 0 <= i < |z[1..]| && z[1..][i] == e;
        assert z[i + 1] == e;
      }
      NothingToRemove(z[1..], z[0].member);
    }
  }

  lemma WithoutNone(l: Ledger)
    ensures Without(l, 0) == l
  {
    assert Order(l.lru)[..0] == [] && Elements([]) == {} && l.lru[0..] == l.lru;
    assert l.resv - {} == l.resv && l.reg - {} == l.reg && l.worker - {} == l.worker;
  }

  lemma ReleaseHead(l: Ledger)
    requires l.lru != [] && ZRem(l.lru, l.lru[0].member) == l.lru[1..]
    ensures l.Release(l.lru[0].member) == Without(l, 1)
  {
    assert Order(l.lru)[..1] == [l.lru[0].member];
    assert Elements([l.lru[0].member]) == {l.lru[0].member};
  }

  lemma WithoutMore(l: Ledger, k: nat)
    requires l.lru != [] && k <= |l.lru| - 1
    ensures Without(Without(l, 1), k) == Without(l, k + 1)
    ensures Order(Without(l, 1).lru) == Order(l.lru)[1..]
    ensures Elements(Order(l.lru)[..k + 1]) == {l.lru[0].member} + Elements(Order(l.lru)[1..][..k])
  {
    var order := Order(l.lru);
    assert Order(l.lru[1..]) == order[1..];
    assert order[..k + 1] == [order[0]] + order[1..][..k] && order[..1] == [order[0]];
    assert Elements(order[..k + 1]) == Elements(order[..1]) + Elements(order[1..][..k]);
    assert l.lru[1..][k..] == l.lru[k + 1..];
    var a, b := Elements(order[..1]), Elements(order[1..][..k]);
    assert l.resv - a - b == l.resv - (a + b) && l.reg - a - b == l.reg - (a + b) && l.worker - a - b == l.worker - (a + b);
  }

  // The budget loop of an undisturbed admission evicts the shortest prefix that fits.
  lemma {:induction false} BudgetLoop(c: Config, l: Ledger, h: Hash, mb: nat, seen: set<Hash>, now: int)
    returns (k: nat, seen': set<Hash>, m: Ledger)
    requires Inv(c, System(l, Held(BudgetTest(h, mb, seen)))) && seen !! Members(l.lru)
    ensures k <= |l.lru| && m == Without(l, k)
    ensures if c.budget > 0 then Shortest(Order(l.lru), l.resv, k, mb, c.budget) else k == 0
    ensures Inv(c, System(m, Held(PortTest(h, mb, seen')))) && seen' !! Members(m.lru)
    ensures Alone(c, l, BudgetTest(h, mb, seen), now) == Alone(c, m, PortTest(h, mb, seen'), now)
    decreases |l.lru|
  {
    if c.budget <= 0 || Total(l.resv) + mb <= c.budget || l.lru == [] {
      k, seen', m := 0, seen, Without(l, 0);
      NoBudgetVictim(c, l, h, mb, seen, now);
      NoneForBudget(c, l, mb);
    } else {
      BudgetVictim(c, l, h, mb, seen, now);
      var k';
      k', seen', m := BudgetLoop(c, Without(l, 1), h, mb, seen + {l.lru[0].member}, now);
      k := k' + 1;
      AfterVictim(c, l, h, mb, seen, now, k', k, m, seen');
    }
  }

  lemma AfterVictim(c: Config, l: Ledger, h: Hash, mb: nat, seen: set<Hash>, now: int,
                    k': nat, k: nat, m: Ledger, seen': set<Hash>)
    requires Inv(c, System(l, Held(BudgetTest(h, mb, seen)))) && seen !! Members(l.lru)
    requires c.budget > 0 && Total(l.resv) + mb > c.budget && l.lru != [] && k' < |l.lru| && k == k' + 1
    requires m == Without(Without(l, 1), k')
    requires Shortest(Order(Without(l, 1).lru), Without(l, 1).resv, k', mb, c.budget)
    requires Inv(c, System(m, Held(PortTest(h, mb, seen'))))
    requires var v := l.lru[0].member;
             && Inv(c, System(Without(l, 1), Held(BudgetTest(h, mb, seen + {v}))))
             && Alone(c, Without(l, 1), BudgetTest(h, mb, seen + {v}), now) == Alone(c, m, PortTest(h, mb, seen'), now)
    ensures m == Without(l, k) && Shortest(Order(l.lru), l.resv, k, mb, c.budget)
    ensures Alone(c, l, BudgetTest(h, mb, seen), now) == Alone(c, m, PortTest(h, mb, seen'), now)
  {
    ShortestWithHead(c, l, mb, k');
    SameEndWithVictim(c, l, h, mb, seen, now, m, seen');
  }

  lemma SameEndWithVictim(c: Config, l: Ledger, h: Hash, mb: nat, seen: set<Hash>, now: int, m: Ledger, seen': set<Hash>)
    requires Inv(c, System(l, Held(BudgetTest(h, mb, seen)))) && seen !! Members(l.lru)
    requires c.budget > 0 && Total(l.resv) + mb > c.budget && l.lru != []
    requires Inv(c, System(m, Held(PortTest(h, mb, seen'))))
    requires var v := l.lru[0].member;
             && Inv(c, System(Without(l, 1), Held(BudgetTest(h, mb, seen + {v}))))
             && Alone(c, Without(l, 1), BudgetTest(h, mb, seen + {v}), now) == Alone(c, m, PortTest(h, mb, seen'), now)
    ensures Alone(c, l, BudgetTest(h, mb, seen), now) == Alone(c, m, PortTest(h, mb, seen'), now)
  {
    BudgetVictimAlone(c, l, h, mb, seen, now);
  }

  lemma NoBudgetVictim(c: Config, l: Ledger, h: Hash, mb: nat, seen: set<Hash>, now: int)
    requires Inv(c, System(l, Held(BudgetTest(h, mb, seen)))) && seen !! Members(l.lru)
    requires c.budget <= 0 || Total(l.resv) + mb <= c.budget || l.lru == []
    ensures var m := Without(l, 0);
            && Inv(c, System(m, Held(PortTest(h, mb, seen)))) && seen !! Members(m.lru)
            && Alone(c, l, BudgetTest(h, mb, seen), now) == Alone(c, m, PortTest(h, mb, seen), now)
  {
    WithoutNone(l);
    HeadIsOldest(l.lru, seen);
    BudgetDone(c, l, h, mb, seen, now);
  }

  lemma BudgetVictim(c: Config, l: Ledger, h: Hash, mb: nat, seen: set<Hash>, now: int)
    requires Inv(c, System(l, Held(BudgetTest(h, mb, seen)))) && seen !! Members(l.lru)
    requires c.budget > 0 && Total(l.resv) + mb > c.budget && l.lru != []
    ensures var v, m := l.lru[0].member, Without(l, 1);
            && Inv(c, System(m, Held(BudgetTest(h, mb, seen + {v})))) && seen + {v} !! Members(m.lru)
            && |m.lru| < |l.lru|
  {
    BudgetVictimAlone(c, l, h, mb, seen, now);
    HeadIsOldest(l.lru, seen);
  }

  lemma BudgetVictimAlone(c: Config, l: Ledger, h: Hash, mb: nat, seen: set<Hash>, now: int)
    requires Inv(c, System(l, Held(BudgetTest(h, mb, seen)))) && seen !! Members(l.lru)
    requires c.budget > 0 && Total(l.resv) + mb > c.budget && l.lru != []
    ensures var v, m := l.lru[0].member, Without(l, 1);
            && Inv(c, System(m, Held(BudgetTest(h, mb, seen + {v}))))
            && Alone(c, l, BudgetTest(h, mb, seen), now) == Alone(c, m, BudgetTest(h, mb, seen + {v}), now)
  {
    HeadIsOldest(l.lru, seen);
    BudgetRound(c, l, h, mb, seen, now);
    ReleaseHead(l);
  }

  lemma NoneForBudget(c: Config, l: Ledger, mb: nat)
    requires c.budget <= 0 || Total(l.resv) + mb <= c.budget || l.lru == []
    ensures c.budget > 0 ==> Shortest(Order(l.lru), l.resv, 0, mb, c.budget)
  {
    if c.budget > 0 {
      NoneIsShortest(Order(l.lru), l.resv, mb, c.budget);
    }
  }

  lemma ShortestWithHead(c: Config, l: Ledger, mb: nat, k: nat)
    requires c.budget > 0 && Total(l.resv) + mb > c.budget && l.lru != []
    requires Shortest(Order(Without(l, 1).lru), Without(l, 1).resv, k, mb, c.budget)
    ensures k + 1 <= |l.lru| && Without(Without(l, 1), k) == Without(l, k + 1)
    ensures Shortest(Order(l.lru), l.resv, k + 1, mb, c.budget)
  {
    WithoutMore(l, k);
    var order := Order(l.lru);
    assert order[..1] == [order[0]] && Elements([order[0]]) == {order[0]};
    ShortestWithFirst(order, l.resv, k, mb, c.budget);
  }

  // ---- Ports ----

  ghost predicate AllTaken(c: Config, reg: map<Hash, int>) {
    forall q | c.lo <= q <= c.hi :: q in reg.Values
  }

  // Before each of the first k members went no port was free, and now one is, or none is left.
  ghost predicate ForPort(c: Config, order: seq<Hash>, reg: map<Hash, int>, k: nat) {
    && k <= |order|
    && (forall j | 0 <= j < k :: AllTaken(c, reg - Elements(order[..j])))
    && (AllTaken(c, reg - Elements(order[..k])) ==> k == |order|)
  }

  lemma NoneForPort(c: Config, order: seq<Hash>, reg: map<Hash, int>)
    requires AllTaken(c, reg) ==> order == []
    ensures ForPort(c, order, reg, 0)
  {
    assert order[..0] == [] && reg - Elements([]) == reg;
  }

  lemma HeadForPort(c: Config, order: seq<Hash>, reg: map<Hash, int>, k: nat)
    requires order != [] && AllTaken(c, reg) && ForPort(c, order[1..], reg - {order[0]}, k)
    ensures ForPort(c, order, reg, k + 1)
  {
    forall j | 0 < j <= k + 1 ensures reg - Elements(order[..j]) == reg - {order[0]} - Elements(order[1..][..j - 1]) {
      assert order[..j] == [order[0]] + order[1..][..j - 1];
      assert Elements(order[..j]) == {order[0]} + Elements(order[1..][..j - 1]);
    }
    assert order[..0] == [] && reg - Elements([]) == reg;
  }

  // The ledger `room` with the claim on a port of the range that was free.
  ghost predicate ClaimedOn(c: Config, room: Ledger, h: Hash, mb: nat, now: int, r: Ledger) {
    && r.resv == room.resv[h := mb] && r.lru == ZAdd(room.lru, h, now)
    && h in r.reg && r.reg == room.reg[h := r.reg[h]]
    && c.lo <= r.reg[h] <= c.hi && r.reg[h] !in room.reg.Values
  }

  lemma ClaimAlone(c: Config, l: Ledger, h: Hash, mb: nat, now: int)
    requires Inv(c, System(l, Held(Allocating(h, mb)))) && c.lo <= c.hi
    ensures ClaimedOn(c, l, h, mb, now, Alone(c, l, Allocating(h, mb), now))
  {
    AllocateFailsIffAllTaken(l, c.lo, c.hi);
    AloneStep(c, l, Allocating(h, mb), now);
    var (m, port) := l.AllocatePort(c.lo, c.hi);
    AloneStep(c, m, Claiming(h, mb, port.value), now);
  }

  // The port loop of an undisturbed admission evicts only while no port is free. Each of its
  // scans moves the cursor on. Then the claim follows.
  lemma {:induction false} PortLoop(c: Config, l: Ledger, h: Hash, mb: nat, seen: set<Hash>, now: int)
    returns (k: nat, room: Ledger)
    requires Inv(c, System(l, Held(PortTest(h, mb, seen)))) && seen !! Members(l.lru) && c.lo <= c.hi
    ensures k <= |l.lru| && room == Without(l, k).(cursor := l.cursor + k + 1)
    ensures ForPort(c, Order(l.lru), l.reg, k)
    ensures ClaimedOn(c, room, h, mb, now, Alone(c, l, PortTest(h, mb, seen), now))
    decreases |l.lru|
  {
    if !AllTaken(c, l.reg) || l.lru == [] {
      k, room := 0, Without(l, 0).(cursor := l.cursor + 1);
      ClaimWithoutVictim(c, l, h, mb, seen, now);
      NoneForPort(c, Order(l.lru), l.reg);
    } else {
      PortVictim(c, l, h, mb, seen, now);
      var k';
      k', room := PortLoop(c, Without(l, 1).(cursor := l.cursor + 1), h, mb, seen + {l.lru[0].member}, now);
      k := k' + 1;
      AfterPortVictim(c, l, h, mb, seen, now, k', k, room);
    }
  }

  lemma AfterPortVictim(c: Config, l: Ledger, h: Hash, mb: nat, seen: set<Hash>, now: int, k': nat, k: nat, room: Ledger)
    requires Inv(c, System(l, Held(PortTest(h, mb, seen)))) && seen !! Members(l.lru)
    requires AllTaken(c, l.reg) && l.lru != [] && k == k' + 1
    requires var v, m := l.lru[0].member, Without(l, 1).(cursor := l.cursor + 1);
             && Inv(c, System(m, Held(PortTest(h, mb, seen + {v}))))
             && ForPort(c, Order(m.lru), m.reg, k') && room == Without(m, k').(cursor := m.cursor + k' + 1)
             && ClaimedOn(c, room, h, mb, now, Alone(c, m, PortTest(h, mb, seen + {v}), now))
    ensures k <= |l.lru| && room == Without(l, k).(cursor := l.cursor + k + 1)
    ensures ForPort(c, Order(l.lru), l.reg, k)
    ensures ClaimedOn(c, room, h, mb, now, Alone(c, l, PortTest(h, mb, seen), now))
  {
    ClaimWithVictim(c, l, h, mb, seen, now, room);
    OneMoreForPort(c, l, k', k, room);
  }

  lemma ClaimWithoutVictim(c: Config, l: Ledger, h: Hash, mb: nat, seen: set<Hash>, now: int)
    requires Inv(c, System(l, Held(PortTest(h, mb, seen)))) && seen !! Members(l.lru) && c.lo <= c.hi
    requires !AllTaken(c, l.reg) || l.lru == []
    ensures ClaimedOn(c, Without(l, 0).(cursor := l.cursor + 1), h, mb, now, Alone(c, l, PortTest(h, mb, seen), now))
  {
    NoPortVictim(c, l, h, mb, seen, now);
    ClaimAlone(c, Without(l, 0).(cursor := l.cursor + 1), h, mb, now);
  }

  lemma ClaimWithVictim(c: Config, l: Ledger, h: Hash, mb: nat, seen: set<Hash>, now: int, room: Ledger)
    requires Inv(c, System(l, Held(PortTest(h, mb, seen)))) && seen !! Members(l.lru)
    requires AllTaken(c, l.reg) && l.lru != []
    requires var v, m := l.lru[0].member, Without(l, 1).(cursor := l.cursor + 1);
             && Inv(c, System(m, Held(PortTest(h, mb, seen + {v}))))
             && ClaimedOn(c, room, h, mb, now, Alone(c, m, PortTest(h, mb, seen + {v}), now))
    ensures ClaimedOn(c, room, h, mb, now, Alone(c, l, PortTest(h, mb, seen), now))
  {
    PortVictimAlone(c, l, h, mb, seen, now);
  }

  lemma OneMoreForPort(c: Config, l: Ledger, k': nat, k: nat, room: Ledger)
    requires l.lru != [] && AllTaken(c, l.reg) && k == k' + 1
    requires var m := Without(l, 1).(cursor := l.cursor + 1);
             ForPort(c, Order(m.lru), m.reg, k') && room == Without(m, k').(cursor := m.cursor + k' + 1)
    ensures ForPort(c, Order(l.lru), l.reg, k) && room == Without(l, k).(cursor := l.cursor + k + 1)
  {
    WithoutMore(l, k');
    WithoutMore(l, 0);
    assert Elements(Order(l.lru)[..1]) == {Order(l.lru)[0]};
    HeadForPort(c, Order(l.lru), l.reg, k');
  }

  lemma NoPortVictim(c: Config, l: Ledger, h: Hash, mb: nat, seen: set<Hash>, now: int)
    requires Inv(c, System(l, Held(PortTest(h, mb, seen)))) && seen !! Members(l.lru)
    requires !AllTaken(c, l.reg) || l.lru == []
    ensures var r := Without(l, 0).(cursor := l.cursor + 1);
            && Inv(c, System(r, Held(Allocating(h, mb))))
            && Alone(c, l, PortTest(h, mb, seen), now) == Alone(c, r, Allocating(h, mb), now)
  {
    WithoutNone(l);
    AllocateFailsIffAllTaken(l, c.lo, c.hi);
    ScanStep(c, l, h, mb, seen, now);
    var r := l.AllocatePort(c.lo, c.hi).0;
    HeadIsOldest(r.lru, seen);
    if AllTaken(c, l.reg) {
      AloneStep(c, r, PortPick(h, mb, seen), now);
    }
  }

  lemma PortVictim(c: Config, l: Ledger, h: Hash, mb: nat, seen: set<Hash>, now: int)
    requires Inv(c, System(l, Held(PortTest(h, mb, seen)))) && seen !! Members(l.lru)
    requires AllTaken(c, l.reg) && l.lru != []
    ensures var v, m := l.lru[0].member, Without(l, 1).(cursor := l.cursor + 1);
            && Inv(c, System(m, Held(PortTest(h, mb, seen + {v})))) && seen + {v} !! Members(m.lru)
            && |m.lru| < |l.lru|
  {
    PortVictimAlone(c, l, h, mb, seen, now);
    HeadIsOldest(l.lru, seen);
  }

  lemma PortVictimAlone(c: Config, l: Ledger, h: Hash, mb: nat, seen: set<Hash>, now: int)
    requires Inv(c, System(l, Held(PortTest(h, mb, seen)))) && seen !! Members(l.lru)
    requires AllTaken(c, l.reg) && l.lru != []
    ensures var v, m := l.lru[0].member, Without(l, 1).(cursor := l.cursor + 1);
            && Inv(c, System(m, Held(PortTest(h, mb, seen + {v}))))
            && Alone(c, l, PortTest(h, mb, seen), now) == Alone(c, m, PortTest(h, mb, seen + {v}), now)
  {
    AllocateFailsIffAllTaken(l, c.lo, c.hi);
    ScanStep(c, l, h, mb, seen, now);
    var r := l.AllocatePort(c.lo, c.hi).0;
    HeadIsOldest(r.lru, seen);
    PortRound(c, r, h, mb, seen, now);
    ReleaseHead(r);
  }

  // ---- Main result ----

  // The first n members are gone: so many for the budget, the others only while no port was
  // free; and no other entry is touched.
  ghost predicate RoomMade(c: Config, l: Ledger, mb: nat, forBudget: nat, n: nat, room: Ledger) {
    var order := Order(l.lru);
    && forBudget <= n <= |order|
    && (if c.budget > 0 then Shortest(order, l.resv, forBudget, mb, c.budget) else forBudget == 0)
    && (forall j | forBudget <= j < n :: AllTaken(c, l.reg - Elements(order[..j])))
    && room.resv == l.resv - Elements(order[..n]) && room.reg == l.reg - Elements(order[..n])
    && room.lru == l.lru[n..]
  }

  lemma PrefixThenMore(c: Config, l: Ledger, mb: nat, a: nat, k: nat, m: Ledger, room: Ledger, cursor: int)
    requires a <= |l.lru| && m == Without(l, a) && k <= |m.lru| && room == Without(m, k).(cursor := cursor)
    requires ForPort(c, Order(m.lru), m.reg, k)
    requires if c.budget > 0 then Shortest(Order(l.lru), l.resv, a, mb, c.budget) else a == 0
    ensures RoomMade(c, l, mb, a, a + k, room)
  {
    var order, rest := Order(l.lru), Order(m.lru);
    assert rest == order[a..];
    forall j | a <= j <= a + k
      ensures l.reg - Elements(order[..j]) == m.reg - Elements(rest[..j - a])
      ensures l.resv - Elements(order[..j]) == m.resv - Elements(rest[..j - a])
    {
      assert order[..j] == order[..a] + rest[..j - a];
      assert Elements(order[..j]) == Elements(order[..a]) + Elements(rest[..j - a]);
    }
  }

  lemma LoopForPort(c: Config, l: Ledger, m: Ledger, h: Hash, mb: nat, a: nat, seen: set<Hash>, now: int)
    returns (k: nat, room: Ledger)
    requires a <= |l.lru| && m == Without(l, a)
    requires if c.budget > 0 then Shortest(Order(l.lru), l.resv, a, mb, c.budget) else a == 0
    requires Inv(c, System(m, Held(PortTest(h, mb, seen)))) && seen !! Members(m.lru) && c.lo <= c.hi
    ensures RoomMade(c, l, mb, a, a + k, room)
    ensures ClaimedOn(c, room, h, mb, now, Alone(c, m, PortTest(h, mb, seen), now))
  {
    k, room := PortLoop(c, m, h, mb, seen, now);
    PrefixThenMore(c, l, mb, a, k, m, room, m.cursor + k + 1);
  }

  // An undisturbed admission evicts, from the front of the order of last use, the shortest
  // prefix that lets the reservation fit the budget, then only while no port is free; it
  // reserves what was asked for on a port that is free.
  lemma AdmissionEvictsAsNeeded(c: Config, l: Ledger, h: Hash, mb: nat, now: int)
    returns (forBudget: nat, forPort: nat, room: Ledger)
    requires Inv(c, System(l, Held(BudgetTest(h, mb, {})))) && c.lo <= c.hi
    ensures RoomMade(c, l, mb, forBudget, forBudget + forPort, room)
    ensures ClaimedOn(c, room, h, mb, now, Alone(c, l, BudgetTest(h, mb, {}), now))
  {
    var seen, m;
    forBudget, seen, m := BudgetLoop(c, l, h, mb, {}, now);
    forPort, room := LoopForPort(c, l, m, h, mb, forBudget, seen, now);
  }
}
