/** Server bookkeeping of src/services/joern_server_manager.py without Redis: touch, evict,
    make-room, spawn and terminate over the in-process dictionaries and the PortManager.
    Container start, readiness and memory pressure are outcomes passed in. */
module JoernServers {
  import opened Basics
  import opened PortManagers

  // How starting a server ends: it is up, its container or image is missing, or another error.
  datatype StartOutcome = Up | Missing | Broken

  // How waiting for its readiness ends.
  datatype WaitOutcome = Ready | TimedOut | Raised

  // Memory budget in MB (memory mode when positive) and the legacy count cap.
  datatype Limits = Limits(budget: int, maxActive: int)

  function Drop(s: seq<Hash>, h: Hash): (r: seq<Hash>)
    ensures |r| <= |s|
    ensures h in s ==> |r| < |s|
    ensures h !in r && forall g | g != h :: g in r <==> g in s
  {
    if s == [] then [] else if s[0] == h then Drop(s[1..], h) else [s[0]] + Drop(s[1..], h)
  }

  // The manager's fields as a value. The exec-id and LRU dictionaries carry no
  // information in their values, so only their keys are kept.
  datatype Local = Local(
    ports: map<Hash, int>,
    execs: set<Hash>,
    resv: map<Hash, nat>,
    lru: seq<Hash>,             // least recently touched first
    lastTouch: map<Hash, int>,
    spawning: set<Hash>,
    evictions: nat,
    pm: Ports)
  {
    function Touch(h: Hash, now: int): Local {
      this.(lru := Drop(lru, h) + [h], lastTouch := lastTouch[h := now])
    }

    function Cleanup(h: Hash): Local {
      this.(ports := ports - {h}, execs := execs - {h}, resv := resv - {h},
            lru := Drop(lru, h), lastTouch := lastTouch - {h}, pm := Release(pm, h))
    }

    function Terminate(h: Hash): Local {
      if h in execs then Cleanup(h) else this
    }

    // The locked end of an eviction, after terminate_server has answered.
    function EvictTail(h: Hash, terminated: bool): Local {
      this.(lru := Drop(lru, h), resv := resv - {h}, lastTouch := lastTouch - {h},
            evictions := evictions + 1,
            pm := if terminated then pm else Release(pm, h))
    }

    function Evict(h: Hash): Local {
      Terminate(h).EvictTail(h, h in execs)
    }

    ghost function EvictForBudget(needed: nat, budget: int): Local
      decreases |lru|
    {
      if lru == [] || Total(resv) + needed <= budget then this
      else Evict(lru[0]).EvictForBudget(needed, budget)
    }

    function EvictForPort(): Local
      decreases |lru|
    {
      if lru == [] || |pm.available| > 0 then this else Evict(lru[0]).EvictForPort()
    }

    function EvictUnderPressure(pressure: bool): Local {
      if lru != [] && pressure then Evict(lru[0]) else this
    }

    ghost function EvictToLimits(c: Limits, needed: nat): Local {
      if c.budget > 0 then EvictForBudget(needed, c.budget).EvictForPort()
      else if |ports| >= c.maxActive && lru != [] then Evict(lru[0])
      else this
    }

    ghost function MakeRoom(c: Limits, needed: nat, pressure: bool): Local {
      EvictToLimits(c, needed).EvictUnderPressure(pressure)
    }

    function ClearStale(h: Hash): Local {
      if h in ports then Cleanup(h) else this
    }

    // Allocate a port and record the reservation; None is the allocator's error.
    function Reserve(h: Hash, mb: nat): (Local, Option<int>) {
      var (pm', port) := Allocate(pm, h);
      if port == None then (this, None)
      else (this.(pm := pm', resv := resv[h := mb], spawning := spawning + {h}), port)
    }

    // The locked part of spawn_server: None is an error raised to its handler.
    ghost function BeginSpawn(c: Limits, h: Hash, mb: nat, pressure: bool): (Local, Option<int>) {
      if h in spawning then (this, None)
      else ClearStale(h).MakeRoom(c, mb, pressure).Reserve(h, mb)
    }

    function Register(h: Hash, port: int): Local {
      this.(execs := execs + {h}, ports := ports[h := port])
    }

    function ReleaseReservation(h: Hash): Local {
      this.(resv := resv - {h})
    }

    function ReleasePort(h: Hash): Local {
      this.(pm := Release(pm, h))
    }

    // A missing container gives the reservation and the port back before it is reported.
    function StartEnded(h: Hash, port: int, start: StartOutcome): Local {
      match start
      case Up => Register(h, port)
      case Missing => ReleaseReservation(h).ReleasePort(h)
      case Broken => this
    }

    function WaitEnded(h: Hash, wait: WaitOutcome, now: int): Local {
      match wait
      case Ready => Touch(h, now)
      case TimedOut => Cleanup(h)
      case Raised => this
    }

    function EndSpawn(h: Hash): Local {
      this.(spawning := spawning - {h})
    }

    // A spawn with no other operation in between: after any failure the handler cleans up.
    ghost function Spawn(c: Limits, h: Hash, mb: nat, healthy: bool, pressure: bool,
                         start: StartOutcome, wait: WaitOutcome, now: int): (Local, Option<int>)
    {
      if h in ports && healthy then (Touch(h, now), Some(ports[h]))
      else
        var (s, port) := BeginSpawn(c, h, mb, pressure);
        if port == None then (s.Cleanup(h), None)
        else
          var s' := s.StartEnded(h, port.value, start);
          if start != Up then (s'.EndSpawn(h).Cleanup(h), None)
          else if wait != Ready then (s'.WaitEnded(h, wait, now).EndSpawn(h).Cleanup(h), None)
          else (s'.Touch(h, now).EndSpawn(h), port)
    }
  }

  class JoernServerManager {
    const limits: Limits
    const portManager: PortManager
    var ports: map<Hash, int>
    var execIds: set<Hash>
    var reservations: map<Hash, nat>
    var lru: seq<Hash>
    var lastTouch: map<Hash, int>
    var spawning: set<Hash>
    var evictionCount: nat

    ghost function State(): Local
      reads this, portManager
    {
      Local(ports, execIds, reservations, lru, lastTouch, spawning, evictionCount, portManager.State())
    }

    ghost predicate Valid()
      reads this, portManager
    {
      ValidPorts(portManager.State())
    }

    constructor (limits: Limits, portMin: int, portMax: int)
      ensures Valid() && fresh(portManager)
      ensures State() == Local(map[], {}, map[], [], map[], {}, 0, InitPorts(portMin, portMax))
    {
      this.limits := limits;
      portManager := new PortManager(portMin, portMax);
      ports, execIds, reservations, lru := map[], {}, map[], [];
      lastTouch, spawning, evictionCount := map[], {}, 0;
    }

    method Touch(h: Hash, now: int)
      requires Valid()
      modifies this
      ensures Valid() && State() == old(State()).Touch(h, now)
    {
      lru := Drop(lru, h);
      lru := lru + [h];
      lastTouch := lastTouch[h := now];
    }

    method CleanupServer(h: Hash)
      requires Valid()
      modifies this, portManager
      ensures Valid() && State() == old(State()).Cleanup(h)
    {
      execIds := execIds - {h};
      ports := ports - {h};
      reservations := reservations - {h};
      lru := Drop(lru, h);
      lastTouch := lastTouch - {h};
      var held := portManager.GetPort(h);
      if held != None {
        var _ := portManager.ReleasePort(h);
      }
    }

    method TerminateServer(h: Hash) returns (terminated: bool)
      requires Valid()
      modifies this, portManager
      ensures Valid() && State() == old(State()).Terminate(h)
      ensures terminated <==> h in old(execIds)
    {
      terminated := h in execIds;
      if terminated {
        CleanupServer(h);
      }
    }

    method Evict(h: Hash)
      requires Valid()
      modifies this, portManager
      ensures Valid() && State() == old(State()).Evict(h)
    {
      var terminated := TerminateServer(h);
      lru := Drop(lru, h);
      reservations := reservations - {h};
      lastTouch := lastTouch - {h};
      evictionCount := evictionCount + 1;
      var held := portManager.GetPort(h);
      if !terminated && held != None {
        var _ := portManager.ReleasePort(h);
      }
    }

    method EvictUnderRssPressure(pressure: bool)
      requires Valid()
      modifies this, portManager
      ensures Valid() && State() == old(State()).EvictUnderPressure(pressure)
    {
      if lru != [] && pressure {
        Evict(lru[0]);
      }
    }

    method MakeRoom(needed: nat, pressure: bool)
      requires Valid()
      modifies this, portManager
      ensures Valid() && State() == old(State()).MakeRoom(limits, needed, pressure)
    {
      if limits.budget > 0 {
        EvictToBudget(needed);
        EvictToPort();
      } else if |ports| >= limits.maxActive && lru != [] {
        Evict(lru[0]);
      }
      EvictUnderRssPressure(pressure);
    }

    method EvictToBudget(needed: nat)
      requires Valid()
      modifies this, portManager
      ensures Valid() && State() == old(State()).EvictForBudget(needed, limits.budget)
    {
      var reserved := SumValues(reservations);
      while lru != [] && reserved + needed > limits.budget
        invariant Valid() && reserved == Total(reservations)
        invariant State().EvictForBudget(needed, limits.budget)
               == old(State()).EvictForBudget(needed, limits.budget)
        decreases |lru|
      {
        Evict(lru[0]);
        reserved := SumValues(reservations);
      }
    }

    method EvictToPort()
      requires Valid()
      modifies this, portManager
      ensures Valid() && State() == old(State()).EvictForPort()
    {
      var free := portManager.AvailableCount();
      while lru != [] && free <= 0
        invariant Valid() && free == |State().pm.available|
        invariant State().EvictForPort() == old(State()).EvictForPort()
        decreases |lru|
      {
        Evict(lru[0]);
        free := portManager.AvailableCount();
      }
    }

    method BeginSpawn(h: Hash, mb: nat, pressure: bool) returns (port: Option<int>)
      requires Valid()
      modifies this, portManager
      ensures Valid() && (State(), port) == old(State()).BeginSpawn(limits, h, mb, pressure)
    {
      if h in spawning {
        return None;
      }
      if h in ports {
        CleanupServer(h);
      }
      MakeRoom(mb, pressure);
      port := Reserve(h, mb);
    }

    method Reserve(h: Hash, mb: nat) returns (port: Option<int>)
      requires Valid()
      modifies this, portManager
      ensures Valid() && (State(), port) == old(State()).Reserve(h, mb)
    {
      port := portManager.AllocatePort(h);
      if port == None {
        return;
      }
      reservations := reservations[h := mb];
      spawning := spawning + {h};
    }

    method StartEnded(h: Hash, port: int, start: StartOutcome)
      requires Valid()
      modifies this, portManager
      ensures Valid() && State() == old(State()).StartEnded(h, port, start)
    {
      match start
      case Up =>
        execIds := execIds + {h};
        ports := ports[h := port];
      case Missing =>
        reservations := reservations - {h};
        var _ := portManager.ReleasePort(h);
      case Broken =>
    }

    method WaitEnded(h: Hash, wait: WaitOutcome, now: int)
      requires Valid()
      modifies this, portManager
      ensures Valid() && State() == old(State()).WaitEnded(h, wait, now)
    {
      match wait
      case Ready => Touch(h, now);
      case TimedOut => CleanupServer(h);
      case Raised =>
    }

    method SpawnServer(h: Hash, mb: nat, healthy: bool, pressure: bool,
                       start: StartOutcome, wait: WaitOutcome, now: int)
      returns (port: Option<int>)
      requires Valid()
      modifies this, portManager
      ensures Valid()
      ensures (State(), port) == old(State()).Spawn(limits, h, mb, healthy, pressure, start, wait, now)
    {
      if h in ports && healthy {
        port := Some(ports[h]);
        Touch(h, now);
        return;
      }
      port := BeginSpawn(h, mb, pressure);
      if port == None {
        CleanupServer(h);
        return;
      }
      StartEnded(h, port.value, start);
      if start == Up {
        WaitEnded(h, wait, now);
      }
      spawning := spawning - {h};
      if start != Up || wait != Ready {
        CleanupServer(h);
        port := None;
      }
    }
  }
}
