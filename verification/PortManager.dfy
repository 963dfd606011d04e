/** The rotating host-port allocator of src/services/port_manager.py. */
module PortManagers {
  import opened Basics

  // The allocator's fields as a value. `lo` and `hi` are the inclusive range.
  datatype Ports = Ports(
    lo: int, hi: int,
    portOf: map<Hash, int>,
    sessionOf: map<int, Hash>,
    available: set<int>,
    cursor: int)

  function PortRange(lo: int, hi: int): (r: set<int>)
    ensures forall q :: q in r <==> lo <= q <= hi
    decreases hi - lo
  {
    if lo > hi then {} else {lo} + PortRange(lo + 1, hi)
  }

  function InitPorts(lo: int, hi: int): Ports {
    Ports(lo, hi, map[], map[], PortRange(lo, hi), lo)
  }

  // The two dictionaries are inverse to each other and the available set holds the rest.
  ghost predicate ValidPorts(p: Ports) {
    && (forall s | s in p.portOf ::
          p.lo <= p.portOf[s] <= p.hi && p.portOf[s] in p.sessionOf && p.sessionOf[p.portOf[s]] == s)
    && (forall q | q in p.sessionOf :: p.sessionOf[q] in p.portOf && p.portOf[p.sessionOf[q]] == q)
    && (forall q :: q in p.available <==> p.lo <= q <= p.hi && q !in p.sessionOf)
    && (p.lo <= p.hi ==> p.lo <= p.cursor <= p.hi)
  }

  // Smallest available port at or after the cursor, else the lowest one.
  function NextAvailableFrom(available: set<int>, cursor: int): int
    requires available != {}
  {
    var ahead := set q | q in available && q >= cursor;
    if ahead != {} then MinOf(ahead) else MinOf(available)
  }

  // A None port is the source's RuntimeError; the state is then unchanged.
  function Allocate(p: Ports, s: Hash): (Ports, Option<int>) {
    if s in p.portOf then (p, Some(p.portOf[s]))
    else if p.available == {} then (p, None)
    else
      var port := NextAvailableFrom(p.available, p.cursor);
      (p.(available := p.available - {port},
          cursor := if port < p.hi then port + 1 else p.lo,
          portOf := p.portOf[s := port],
          sessionOf := p.sessionOf[port := s]),
       Some(port))
  }

  function Release(p: Ports, s: Hash): Ports {
    if s !in p.portOf then p
    else
      var port := p.portOf[s];
      p.(portOf := p.portOf - {s},
         sessionOf := p.sessionOf - {port},
         available := p.available + {port})
  }

  function ReleaseAll(p: Ports): Ports {
    p.(portOf := map[], sessionOf := map[], available := p.available + p.portOf.Values)
  }

  lemma AllocateValid(p: Ports, s: Hash)
    requires ValidPorts(p)
    ensures ValidPorts(Allocate(p, s).0)
    ensures Allocate(p, s).1.Some? <==> s in p.portOf || p.available != {}
    ensures Allocate(p, s).1.Some? ==>
              && Allocate(p, s).0.portOf == p.portOf[s := Allocate(p, s).1.value]
              && (s !in p.portOf ==> Allocate(p, s).1.value in p.available)
  {
    if s in p.portOf {
      assert p.portOf == p.portOf[s := p.portOf[s]];
    }
  }

  // A session that holds a port is given that port again, and nothing else changes.
  lemma AllocateAgain(p: Ports, s: Hash)
    requires Allocate(p, s).1.Some?
    ensures var (q, port) := Allocate(p, s); s in q.portOf && q.portOf[s] == port.value && Allocate(q, s) == (q, port)
  {
  }

  lemma ReleaseValid(p: Ports, s: Hash)
    requires ValidPorts(p)
    ensures ValidPorts(Release(p, s))
    ensures Release(p, s).portOf == p.portOf - {s}
  {
  }

  class PortManager {
    const portMin: int
    const portMax: int
    var sessionToPort: map<Hash, int>
    var portToSession: map<int, Hash>
    var availablePorts: set<int>
    var cursor: int

    ghost function State(): Ports
      reads this
    {
      Ports(portMin, portMax, sessionToPort, portToSession, availablePorts, cursor)
    }

    constructor (portMin: int, portMax: int)
      ensures this.portMin == portMin && this.portMax == portMax
      ensures State() == InitPorts(portMin, portMax) && ValidPorts(State())
    {
      this.portMin, this.portMax := portMin, portMax;
      sessionToPort, portToSession := map[], map[];
      availablePorts := PortRange(portMin, portMax);
      cursor := portMin;
    }

    method AllocatePort(session: Hash) returns (port: Option<int>)
      requires ValidPorts(State())
      modifies this
      ensures ValidPorts(State())
      ensures (State(), port) == Allocate(old(State()), session)
    {
      AllocateValid(State(), session);
      if session in sessionToPort {
        return Some(sessionToPort[session]);
      }
      if availablePorts == {} {
        return None;
      }
      var p := NextAvailableFrom(availablePorts, cursor);
      availablePorts := availablePorts - {p};
      cursor := if p < portMax then p + 1 else portMin;
      sessionToPort := sessionToPort[session := p];
      portToSession := portToSession[p := session];
      port := Some(p);
    }

    method GetPort(session: Hash) returns (port: Option<int>)
      ensures port == if session in sessionToPort then Some(sessionToPort[session]) else None
    {
      port := if session in sessionToPort then Some(sessionToPort[session]) else None;
    }

    method AvailableCount() returns (n: nat)
      ensures n == |availablePorts|
    {
      n := |availablePorts|;
    }

    method ReleasePort(session: Hash) returns (released: bool)
      requires ValidPorts(State())
      modifies this
      ensures ValidPorts(State())
      ensures State() == Release(old(State()), session)
      ensures released <==> session in old(sessionToPort)
    {
      ReleaseValid(State(), session);
      if session !in sessionToPort {
        return false;
      }
      var p := sessionToPort[session];
      sessionToPort := sessionToPort - {session};
      portToSession := portToSession - {p};
      availablePorts := availablePorts + {p};
      released := true;
    }

    method ReleaseAllPorts()
      requires ValidPorts(State())
      modifies this
      ensures ValidPorts(State())
      ensures State() == ReleaseAll(old(State()))
      ensures availablePorts == PortRange(portMin, portMax)
    {
      availablePorts := availablePorts + sessionToPort.Values;
      assert forall q | q in portToSession :: q == sessionToPort[portToSession[q]];
      sessionToPort := map[];
      portToSession := map[];
    }
  }

  // ---- A fresh range ----

  function AllocateEach(p: Ports, sessions: seq<Hash>): Ports {
    if sessions == [] then p
    else Allocate(AllocateEach(p, sessions[..|sessions| - 1]), sessions[|sessions| - 1]).0
  }

  // The sessions hold the first ports of the range, and the cursor is behind them.
  ghost predicate InTurn(p: Ports, lo: int, hi: int, sessions: seq<Hash>) {
    && p.lo == lo && p.hi == hi && (forall q :: q in p.available <==> lo + |sessions| <= q <= hi)
    && (|sessions| <= hi - lo ==> p.cursor == lo + |sessions|)
    && (forall s | s in p.portOf :: s in sessions)
    && forall i | 0 <= i < |sessions| :: sessions[i] in p.portOf && p.portOf[sessions[i]] == lo + i
  }

  lemma {:induction false} EachHasItsPort(lo: int, hi: int, sessions: seq<Hash>)
    requires |sessions| <= hi - lo + 1 && forall i, j | 0 <= i < j < |sessions| :: sessions[i] != sessions[j]
    ensures InTurn(AllocateEach(InitPorts(lo, hi), sessions), lo, hi, sessions)
  {
    if sessions == [] {
    } else {
      var n := |sessions| - 1;
      EachHasItsPort(lo, hi, sessions[..n]);
      assert sessions == sessions[..n] + [sessions[n]];
      OneMoreInTurn(AllocateEach(InitPorts(lo, hi), sessions[..n]), lo, hi, sessions[..n], sessions[n]);
    }
  }

  lemma OneMoreInTurn(p: Ports, lo: int, hi: int, sessions: seq<Hash>, s: Hash)
    requires InTurn(p, lo, hi, sessions) && |sessions| <= hi - lo && s !in sessions
    ensures InTurn(Allocate(p, s).0, lo, hi, sessions + [s])
  {
    NextInTurn(p, lo + |sessions|);
  }

  lemma NextInTurn(p: Ports, port: int)
    requires p.cursor == port <= p.hi && forall q :: q in p.available <==> port <= q <= p.hi
    ensures port in p.available && NextAvailableFrom(p.available, p.cursor) == port
  {
    var ahead := set q | q in p.available && q >= p.cursor;
    assert port in ahead && IsLeast(ahead, port);
    assert IsLeast(ahead, MinOf(ahead));
  }

  // From a fresh range the sessions are given its ports in ascending order.
  lemma FreshPortsAscend(lo: int, hi: int, sessions: seq<Hash>, i: nat)
    requires |sessions| <= hi - lo + 1 && (forall i, j | 0 <= i < j < |sessions| :: sessions[i] != sessions[j])
    requires i < |sessions|
    ensures var p := AllocateEach(InitPorts(lo, hi), sessions); sessions[i] in p.portOf && p.portOf[sessions[i]] == lo + i
  {
    EachHasItsPort(lo, hi, sessions);
  }

  // ---- Rotation: why a freed port is not handed straight back ----

  datatype PortOp = Alloc(s: Hash) | Free(s: Hash) | FreeAll

  function Step(p: Ports, op: PortOp): Ports {
    match op
    case Alloc(s) => Allocate(p, s).0
    case Free(s) => Release(p, s)
    case FreeAll => ReleaseAll(p)
  }

  function Run(p: Ports, ops: seq<PortOp>): Ports
    decreases |ops|
  {
    if ops == [] then p else Run(Step(p, ops[0]), ops[1..])
  }

  // How many places after the successor of `a`, in cyclic order, port q comes:
  // 0 for the successor of a, and the largest offset for a itself.
  function Offset(p: Ports, a: int, q: int): int {
    if q > a then q - a - 1 else q - a + p.hi - p.lo
  }

  // The pick is the first available port in cyclic order from the cursor.
  lemma PickIsFirstInCyclicOrder(p: Ports, a: int, q: int)
    requires ValidPorts(p) && q in p.available && p.lo <= a <= p.hi && q != a
    requires Offset(p, a, p.cursor) <= Offset(p, a, q)
    ensures var r := NextAvailableFrom(p.available, p.cursor);
            Offset(p, a, p.cursor) <= Offset(p, a, r) <= Offset(p, a, q)
  {
    var ahead := set x | x in p.available && x >= p.cursor;
    if q >= p.cursor {
      assert q in ahead;
    }
  }

  lemma StepKeepsCursorBehind(p: Ports, a: int, q: int, op: PortOp)
    requires ValidPorts(p) && p.lo <= a <= p.hi && q != a
    requires q in p.available && q in Step(p, op).available
    requires Offset(p, a, p.cursor) <= Offset(p, a, q)
    ensures ValidPorts(Step(p, op)) && Step(p, op).lo == p.lo && Step(p, op).hi == p.hi
    ensures Offset(p, a, Step(p, op).cursor) <= Offset(p, a, q)
  {
    match op
    case Alloc(s) =>
      AllocateValid(p, s);
      if s !in p.portOf {
        PickIsFirstInCyclicOrder(p, a, q);
      }
    case Free(s) => ReleaseValid(p, s);
    case FreeAll =>
  }

  lemma {:induction false} CursorStaysBehind(p: Ports, a: int, q: int, ops: seq<PortOp>)
    requires ValidPorts(p) && p.lo <= a <= p.hi && q != a
    requires Offset(p, a, p.cursor) <= Offset(p, a, q)
    requires forall k | 0 <= k <= |ops| :: q in Run(p, ops[..k]).available
    ensures var e := Run(p, ops);
            ValidPorts(e) && e.lo == p.lo && e.hi == p.hi && q in e.available
            && Offset(p, a, e.cursor) <= Offset(p, a, q)
    decreases |ops|
  {
    assert Run(p, ops[..0]) == p;
    if ops == [] {
      assert ops[..0] == ops;
    } else {
      var p' := Step(p, ops[0]);
      forall k | 0 <= k <= |ops| - 1 ensures q in Run(p', ops[1..][..k]).available {
        assert ops[..k + 1][1..] == ops[1..][..k];
      }
      assert ops[1..][..0] == [];
      StepKeepsCursorBehind(p, a, q, ops[0]);
      CursorStaysBehind(p', a, q, ops[1..]);
    }
  }

  // Between two hand-outs of the same port, over any sequence of operations, every other
  // port of the range was unavailable at some moment.
  lemma ReissueNeedsFullSweep(p: Ports, s: Hash, ops: seq<PortOp>, s2: Hash, q: int)
    requires ValidPorts(p) && s !in p.portOf && p.available != {}
    requires var p1 := Allocate(p, s).0;
             s2 !in Run(p1, ops).portOf && Allocate(Run(p1, ops), s2).1 == Allocate(p, s).1
    requires p.lo <= q <= p.hi && q != Allocate(p, s).1.value
    ensures var p1 := Allocate(p, s).0;
            exists k :: 0 <= k <= |ops| && q !in Run(p1, ops[..k]).available
  {
    var p1, a := Allocate(p, s).0, Allocate(p, s).1.value;
    AllocateValid(p, s);
    if forall k | 0 <= k <= |ops| :: q in Run(p1, ops[..k]).available {
      CursorStaysBehind(p1, a, q, ops);
      PickIsFirstInCyclicOrder(Run(p1, ops), a, q);
    }
  }

  // A port allocated and released at once is the next one given iff it was the only free one.
  lemma ImmediateReissueIffOnlyFreePort(p: Ports, s: Hash, s2: Hash)
    requires ValidPorts(p) && s !in p.portOf && s2 !in p.portOf && p.available != {}
    ensures var p1 := Allocate(p, s).0;
            Allocate(Release(p1, s), s2).1 == Allocate(p, s).1
            <==> p.available == {Allocate(p, s).1.value}
  {
    var p1, a := Allocate(p, s).0, Allocate(p, s).1.value;
    AllocateValid(p, s);
    ReleaseValid(p1, s);
    var p2 := Release(p1, s);
    assert p2.available == p.available;
    if p.available != {a} {
      assert p.available != {} && a in p.available;
      var q := AnyOf(p.available - {a});
      PickIsFirstInCyclicOrder(p2, a, q);
    }
  }
}
