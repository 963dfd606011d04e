/** The shared pool ledger of src/services/pool_store.py: reservations, registry, workers
    and the last-touch sorted set that several processes keep in Redis. */
module PoolStores {
  import opened Basics

  // ---- The sorted set: members ordered by (score, member), one entry per member ----

  datatype Entry = Entry(score: int, member: Hash)
  type ZSet = seq<Entry>

  predicate Before(a: Entry, b: Entry) {
    a.score < b.score || (a.score == b.score && a.member < b.member)
  }

  ghost predicate Sorted(z: ZSet) {
    forall i, j | 0 <= i < j < |z| :: Before(z[i], z[j]) && z[i].member != z[j].member
  }

  function Members(z: ZSet): set<Hash> {
    set e | e in z :: e.member
  }

  function ZRem(z: ZSet, m: Hash): ZSet {
    if z == [] then [] else if z[0].member == m then ZRem(z[1..], m) else [z[0]] + ZRem(z[1..], m)
  }

  function ZInsert(z: ZSet, e: Entry): ZSet {
    if z == [] || Before(e, z[0]) then [e] + z else [z[0]] + ZInsert(z[1..], e)
  }

  function ZAdd(z: ZSet, m: Hash, score: int): ZSet {
    ZInsert(ZRem(z, m), Entry(score, m))
  }

  // The first member in score order that is not excluded.
  function OldestIn(z: ZSet, exclude: set<Hash>): Option<Hash> {
    if z == [] then None
    else if z[0].member !in exclude then Some(z[0].member)
    else OldestIn(z[1..], exclude)
  }

  lemma {:induction false} ZRemDrops(z: ZSet, m: Hash)
    ensures forall e :: e in ZRem(z, m) <==> e in z && e.member != m
  {
    if z == [] {
    } else {
      assert z == [z[0]] + z[1..];
      ZRemDrops(z[1..], m);
    }
  }

  lemma {:induction false} ZRemSorted(z: ZSet, m: Hash)
    requires Sorted(z)
    ensures Sorted(ZRem(z, m))
  {
    if z == [] {
    } else {
      ZRemSorted(z[1..], m);
      ZRemDrops(z[1..], m);
      SortedCons(z[0], ZRem(z[1..], m));
    }
  }

  lemma ZRemKeeps(z: ZSet, m: Hash)
    requires Sorted(z)
    ensures Sorted(ZRem(z, m))
    ensures forall e :: e in ZRem(z, m) <==> e in z && e.member != m
    ensures Members(ZRem(z, m)) == Members(z) - {m}
  {
    ZRemSorted(z, m);
    ZRemDrops(z, m);
  }

  lemma {:induction false} ZInsertAdds(z: ZSet, e: Entry)
    ensures forall x :: x in ZInsert(z, e) <==> x in z || x == e
    ensures Members(ZInsert(z, e)) == Members(z) + {e.member}
  {
    if z != [] && !Before(e, z[0]) {
      assert z == [z[0]] + z[1..];
      ZInsertAdds(z[1..], e);
    }
  }

  lemma {:induction false} ZInsertKeeps(z: ZSet, e: Entry)
    requires Sorted(z) && e.member !in Members(z)
    ensures Sorted(ZInsert(z, e))
  {
    if z == [] {
    } else if Before(e, z[0]) {
      forall x | x in z ensures Before(e, x) && x.member != e.member {
        assert x.member in Members(z);
      }
      SortedCons(e, z);
    } else {
      assert z[0] in z && z[0].member in Members(z);
      assert forall x | x in z[1..] :: x in z;
      assert Members(z[1..]) <= Members(z);
      ZInsertKeeps(z[1..], e);
      ZInsertAdds(z[1..], e);
      SortedCons(z[0], ZInsert(z[1..], e));
    }
  }

  lemma SortedCons(e: Entry, z: ZSet)
    requires Sorted(z) && forall x | x in z :: Before(e, x) && x.member != e.member
    ensures Sorted([e] + z)
  {
    forall i, j | 0 <= i < j < |[e] + z|
      ensures Before(([e] + z)[i], ([e] + z)[j]) && ([e] + z)[i].member != ([e] + z)[j].member
    {
      assert ([e] + z)[j] == z[j - 1] && z[j - 1] in z;
    }
  }

  lemma ZAddKeeps(z: ZSet, m: Hash, score: int)
    requires Sorted(z)
    ensures Sorted(ZAdd(z, m, score))
    ensures forall x :: x in ZAdd(z, m, score) <==> (x in z && x.member != m) || x == Entry(score, m)
    ensures Members(ZAdd(z, m, score)) == Members(z) + {m}
  {
    ZRemKeeps(z, m);
    ZInsertKeeps(ZRem(z, m), Entry(score, m));
    ZInsertAdds(ZRem(z, m), Entry(score, m));
  }

  // Oldest picks the least-recently-touched member that is not excluded, and gives up
  // exactly when every member is excluded.
  lemma {:induction false} OldestIsLeast(z: ZSet, exclude: set<Hash>)
    requires Sorted(z)
    ensures OldestIn(z, exclude) == None <==> Members(z) <= exclude
    ensures OldestIn(z, exclude).Some? ==>
              exists e :: e in z && e.member == OldestIn(z, exclude).value && e.member !in exclude
                          && forall x | x in z && x.member !in exclude :: x == e || Before(e, x)
  {
    if z == [] {
    } else {
      assert z == [z[0]] + z[1..];
      assert z[0] in z && z[0].member in Members(z);
      if z[0].member in exclude {
        OldestIsLeast(z[1..], exclude);
      }
    }
  }

  // ---- The ledger ----

  datatype Ledger = Ledger(
    resv: map<Hash, nat>,     // reserved MB
    reg: map<Hash, int>,      // host port
    worker: map<Hash, string>,
    lru: ZSet,
    cursor: int)
  {
    function Claim(h: Hash, port: int, mb: nat, now: int): Ledger {
      this.(resv := resv[h := mb], reg := reg[h := port], lru := ZAdd(lru, h, now))
    }

    function Release(h: Hash): Ledger {
      this.(resv := resv - {h}, reg := reg - {h}, worker := worker - {h}, lru := ZRem(lru, h))
    }

    function Touch(h: Hash, now: int): Ledger {
      this.(lru := ZAdd(lru, h, now))
    }

    function SetWorker(h: Hash, name: string): Ledger {
      this.(worker := worker[h := name])
    }

    // The cursor is advanced whether or not a port is found.
    function AllocatePort(lo: int, hi: int): (Ledger, Option<int>) {
      (this.(cursor := cursor + 1), Scan(reg.Values, lo, hi - lo + 1, cursor + 1, 0))
    }
  }

  // The i-th port of the sweep that starts at `start`.
  function SweepPort(lo: int, span: int, start: int, i: nat): int
    requires span > 0
  {
    lo + (start + i) % span
  }

  function Scan(taken: set<int>, lo: int, span: int, start: int, i: nat): Option<int>
    decreases span - i
  {
    if i >= span then None
    else if SweepPort(lo, span, start, i) !in taken then Some(SweepPort(lo, span, start, i))
    else Scan(taken, lo, span, start, i + 1)
  }

  lemma MulBounds(n: int, k: int)
    requires n > 0
    ensures k >= 1 ==> n * k >= n
    ensures k <= -1 ==> n * k <= -n
  {
  }

  lemma ModUnique(x: int, k: int, n: int)
    requires 0 <= x < n
    ensures (x + n * k) % n == x
  {
    var q, r := (x + n * k) / n, (x + n * k) % n;
    assert x + n * k == n * q + r;
    assert n * (k - q) == r - x;
    MulBounds(n, k - q);
  }

  lemma ModDistinct(x: int, y: int, n: int)
    requires 0 < y - x < n
    ensures x % n != y % n
  {
    var q := y / n - x / n;
    assert y - x == n * q + (y % n - x % n);
    MulBounds(n, q);
  }

  // Whatever the cursor, the sweep passes each port of the range exactly once.
  lemma SweepVisitsEachPortOnce(lo: int, span: int, start: int, port: int)
    requires lo <= port < lo + span
    ensures exists i :: 0 <= i < span && SweepPort(lo, span, start, i) == port
    ensures forall i, j | 0 <= i < j < span :: SweepPort(lo, span, start, i) != SweepPort(lo, span, start, j)
  {
    var d := port - lo - start;
    var i := d % span;
    assert d == span * (d / span) + i;
    assert start + i == (port - lo) + span * -(d / span);
    ModUnique(port - lo, -(d / span), span);
    assert SweepPort(lo, span, start, i) == port;
    forall i: nat, j: nat | i < j < span ensures SweepPort(lo, span, start, i) != SweepPort(lo, span, start, j) {
      ModDistinct(start + i, start + j, span);
    }
  }

  lemma {:induction false} ScanFindsFirstFree(taken: set<int>, lo: int, span: int, start: int, i: nat)
    ensures match Scan(taken, lo, span, start, i)
            case Some(p) => exists j :: i <= j < span && p == SweepPort(lo, span, start, j) && p !in taken
                                        && forall k | i <= k < j :: SweepPort(lo, span, start, k) in taken
            case None => forall k | i <= k < span :: SweepPort(lo, span, start, k) in taken
    decreases span - i
  {
    if i >= span || SweepPort(lo, span, start, i) !in taken {
    } else {
      ScanFindsFirstFree(taken, lo, span, start, i + 1);
    }
  }

  // An answer is a free port of the range; no answer means that every port is taken.
  lemma AllocateFailsIffAllTaken(l: Ledger, lo: int, hi: int)
    ensures var port := l.AllocatePort(lo, hi).1;
            && (port == None <==> forall q | lo <= q <= hi :: q in l.reg.Values)
            && (port.Some? ==> lo <= port.value <= hi && port.value !in l.reg.Values)
  {
    var span, start := hi - lo + 1, l.cursor + 1;
    ScanFindsFirstFree(l.reg.Values, lo, span, start, 0);
    if l.AllocatePort(lo, hi).1 == None {
      forall q | lo <= q <= hi ensures q in l.reg.Values {
        SweepVisitsEachPortOnce(lo, span, start, q);
      }
    }
  }

  // The ledger after n allocations in a row.
  function Allocated(l: Ledger, lo: int, hi: int, n: nat): Ledger {
    if n == 0 then l else Allocated(l, lo, hi, n - 1).AllocatePort(lo, hi).0
  }

  lemma {:induction false} AllocationsMoveOn(l: Ledger, lo: int, hi: int, n: nat)
    ensures Allocated(l, lo, hi, n) == l.(cursor := l.cursor + n)
  {
    if n == 0 {
    } else {
      AllocationsMoveOn(l, lo, hi, n - 1);
    }
  }

  // With nothing registered the answers go round the range, starting behind the cursor.
  lemma EmptyRangeIsSweptInTurn(l: Ledger, lo: int, hi: int, n: nat)
    requires lo <= hi && l.reg == map[]
    ensures Allocated(l, lo, hi, n).AllocatePort(lo, hi).1 == Some(lo + (l.cursor + 1 + n) % (hi - lo + 1))
  {
    AllocationsMoveOn(l, lo, hi, n);
    assert SweepPort(lo, hi - lo + 1, l.cursor + n + 1, 0) !in l.reg.Values;
  }

  // The cursor moves on with every allocation, so that each free port of the range is the
  // answer to one of as many allocations as the range has ports.
  lemma EveryFreePortComesRound(l: Ledger, lo: int, hi: int, port: int)
    requires lo <= port <= hi && port !in l.reg.Values
    ensures exists n: nat :: n <= hi - lo && Allocated(l, lo, hi, n).AllocatePort(lo, hi).1 == Some(port)
  {
    var span := hi - lo + 1;
    SweepVisitsEachPortOnce(lo, span, l.cursor + 1, port);
    var i :| 0 <= i < span && SweepPort(lo, span, l.cursor + 1, i) == port;
    AllocationsMoveOn(l, lo, hi, i);
    assert SweepPort(lo, span, l.cursor + 1 + i, 0) == port;
  }

  // ---- The store ----

  class RedisPoolStore {
    var reservations: map<Hash, nat>
    var registry: map<Hash, int>
    var workers: map<Hash, string>
    var lru: ZSet
    var portCursor: int

    ghost function State(): Ledger
      reads this
    {
      Ledger(reservations, registry, workers, lru, portCursor)
    }

    constructor ()
      ensures State() == Ledger(map[], map[], map[], [], 0)
    {
      reservations, registry, workers, lru, portCursor := map[], map[], map[], [], 0;
    }

    method Claim(h: Hash, port: int, mb: nat, now: int)
      modifies this
      ensures State() == old(State()).Claim(h, port, mb, now)
    {
      reservations := reservations[h := mb];
      registry := registry[h := port];
      lru := ZAdd(lru, h, now);
    }

    method Release(h: Hash)
      modifies this
      ensures State() == old(State()).Release(h)
    {
      reservations := reservations - {h};
      registry := registry - {h};
      workers := workers - {h};
      lru := ZRem(lru, h);
    }

    method Touch(h: Hash, now: int)
      modifies this
      ensures State() == old(State()).Touch(h, now)
    {
      lru := ZAdd(lru, h, now);
    }

    method Oldest(exclude: set<Hash>) returns (h: Option<Hash>)
      ensures h == OldestIn(lru, exclude)
    {
      for i := 0 to |lru|
        invariant OldestIn(lru, exclude) == OldestIn(lru[i..], exclude)
      {
        if lru[i].member !in exclude {
          return Some(lru[i].member);
        }
      }
      h := None;
    }

    method AllocatePort(portMin: int, portMax: int) returns (port: Option<int>)
      modifies this
      ensures (State(), port) == old(State()).AllocatePort(portMin, portMax)
    {
      var taken := registry.Values;
      var span := portMax - portMin + 1;
      portCursor := portCursor + 1;
      var i := 0;
      while i < span
        invariant 0 <= i
        invariant Scan(taken, portMin, span, portCursor, 0) == Scan(taken, portMin, span, portCursor, i)
      {
        var p := portMin + (portCursor + i) % span;
        if p !in taken {
          return Some(p);
        }
        i := i + 1;
      }
      port := None;
    }
  }
}
