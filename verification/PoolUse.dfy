/** What the order of eviction in Redis mode goes by: the clock readings of the calls that used
    a codebase, over every interleaving of src/services/pool_store.py's operations. */
module PoolUse {
  import opened Basics
  import opened PoolStores
  import opened PoolProtocol

  // When the step uses the codebase: a touch of a known one, or the claim of the lock holder.
  function UsedAt(c: Config, s: System, a: Action, h: Hash): Option<int> {
    match a
    case AnyTouch(g, now) => if g == h && h in c.known then Some(now) else None
    case Advance(now) =>
      if s.lock.Held? && s.lock.phase.Claiming? && s.lock.phase.h == h then Some(now) else None
    case _ => None
  }

  // The clock reading of the last step of a run from the start that used the codebase.
  ghost function LastUse(c: Config, actions: seq<Action>, h: Hash): Option<int>
    decreases |actions|
  {
    if actions == [] then None
    else
      var rest, a := actions[..|actions| - 1], actions[|actions| - 1];
      var used := UsedAt(c, Run(c, Start, rest), a, h);
      if used.Some? then used else LastUse(c, rest, h)
  }

  // The step gives the codebase it uses its clock reading and leaves the others theirs.
  lemma StepScores(c: Config, s: System, a: Action, e: Entry)
    requires Inv(c, s) && e in Do(c, s, a).ledger.lru
    ensures var used := UsedAt(c, s, a, e.member); if used.Some? then used == Some(e.score) else e in s.ledger.lru
  {
    var l := s.ledger;
    match a
    case Acquire(_, _) =>
    case AnyRelease(g) => ZRemKeeps(l.lru, g);
    case AnyTouch(g, now) => ZAddKeeps(l.lru, g, now);
    case AnySetWorker(_, _) =>
    case Advance(now) =>
      if s.lock.Held? {
        AdvanceScores(c, l, s.lock.phase, now, e);
      }
  }

  lemma AdvanceScores(c: Config, l: Ledger, ph: Phase, now: int, e: Entry)
    requires Inv(c, System(l, Held(ph))) && e in AdvancePhase(c, l, ph, now).ledger.lru
    ensures if ph.Claiming? && ph.h == e.member then e.score == now else e in l.lru
  {
    match ph
    case BudgetEvict(_, _, _, v) => ZRemKeeps(l.lru, v);
    case PortEvict(_, _, _, v) => ZRemKeeps(l.lru, v);
    case Claiming(g, mb, port) => ZAddKeeps(l.lru, g, now);
    case _ =>
  }

  // In every reachable ledger each codebase stands in the order at the time of its last use.
  lemma {:induction false} ScoreIsLastUse(c: Config, actions: seq<Action>, e: Entry)
    requires e in Run(c, Start, actions).ledger.lru
    ensures LastUse(c, actions, e.member) == Some(e.score)
    decreases |actions|
  {
    if actions == [] {
    } else {
      var rest, a := actions[..|actions| - 1], actions[|actions| - 1];
      assert actions == rest + [a];
      RunSnoc(c, Start, rest, a);
      RunKeepsInv(c, Start, rest);
      StepScores(c, Run(c, Start, rest), a, e);
      if UsedAt(c, Run(c, Start, rest), a, e.member) == None {
        ScoreIsLastUse(c, rest, e);
      }
    }
  }

  // So the victim is a codebase whose last use is no later than that of any other outside the
  // excluded set, of several the first by name, and there is none exactly when all in the order
  // are excluded.
  lemma VictimIsLeastRecentlyUsed(c: Config, actions: seq<Action>, seen: set<Hash>)
    ensures var order := Run(c, Start, actions).ledger.lru;
            match OldestIn(order, seen)
            case None => Members(order) <= seen
            case Some(v) =>
              && v in Members(order) && v !in seen && LastUse(c, actions, v).Some?
              && forall x | x in Members(order) && x !in seen ::
                   && LastUse(c, actions, x).Some?
                   && LastUse(c, actions, v).value <= LastUse(c, actions, x).value
                   && (LastUse(c, actions, v) == LastUse(c, actions, x) ==> v <= x)
  {
    var order := Run(c, Start, actions).ledger.lru;
    RunKeepsInv(c, Start, actions);
    OldestIsLeast(order, seen);
    forall e | e in order ensures LastUse(c, actions, e.member) == Some(e.score) {
      ScoreIsLastUse(c, actions, e);
    }
    if OldestIn(order, seen).Some? {
      var e :| e in order && e.member == OldestIn(order, seen).value && e.member !in seen
               && forall x | x in order && x.member !in seen :: x == e || Before(e, x);
      assert e.member in Members(order);
      forall x | x in Members(order) && x !in seen
        ensures LastUse(c, actions, x).Some? && e.score <= LastUse(c, actions, x).value
        ensures LastUse(c, actions, x) == Some(e.score) ==> e.member <= x
      {
        var f :| f in order && f.member == x;
      }
    }
  }

  // ---- The other tables ----

  // One codebase's entries in reservations, registry and workers.
  datatype Row = Row(resv: Option<nat>, port: Option<int>, worker: Option<string>)

  const NoRow := Row(None, None, None)

  function RowOf(l: Ledger, h: Hash): Row {
    Row(if h in l.resv then Some(l.resv[h]) else None,
        if h in l.reg then Some(l.reg[h]) else None,
        if h in l.worker then Some(l.worker[h]) else None)
  }

  // What the step does to the entries of the codebase: a release or an eviction deletes all of
  // them, a claim sets two, naming the worker the third.
  function NextRow(s: System, a: Action, h: Hash, row: Row): Row {
    match a
    case AnyRelease(g) => if g == h then NoRow else row
    case AnySetWorker(g, name) => if g == h then row.(worker := Some(name)) else row
    case Advance(_) =>
      if s.lock.Free? then row
      else (match s.lock.phase
            case BudgetEvict(_, _, _, v) => if v == h then NoRow else row
            case PortEvict(_, _, _, v) => if v == h then NoRow else row
            case Claiming(g, mb, port) => if g == h then row.(resv := Some(mb), port := Some(port)) else row
            case _ => row)
    case _ => row
  }

  ghost function LastRow(c: Config, actions: seq<Action>, h: Hash): Row
    decreases |actions|
  {
    if actions == [] then NoRow
    else
      var rest, a := actions[..|actions| - 1], actions[|actions| - 1];
      NextRow(Run(c, Start, rest), a, h, LastRow(c, rest, h))
  }

  lemma StepRow(c: Config, s: System, a: Action, h: Hash)
    ensures RowOf(Do(c, s, a).ledger, h) == NextRow(s, a, h, RowOf(s.ledger, h))
  {
    match a
    case Advance(now) =>
      if s.lock.Held? {
        AdvanceRow(c, s.ledger, s.lock.phase, now, h);
      }
    case _ =>
  }

  lemma AdvanceRow(c: Config, l: Ledger, ph: Phase, now: int, h: Hash)
    ensures RowOf(AdvancePhase(c, l, ph, now).ledger, h) == NextRow(System(l, Held(ph)), Advance(now), h, RowOf(l, h))
  {
  }

  // Every reachable ledger holds exactly what the steps so far have claimed, named and not
  // deleted since.
  lemma {:induction false} LedgerTellsTheSteps(c: Config, actions: seq<Action>, h: Hash)
    ensures RowOf(Run(c, Start, actions).ledger, h) == LastRow(c, actions, h)
    decreases |actions|
  {
    if actions == [] {
    } else {
      var rest, a := actions[..|actions| - 1], actions[|actions| - 1];
      assert actions == rest + [a];
      RunSnoc(c, Start, rest, a);
      LedgerTellsTheSteps(c, rest, h);
      StepRow(c, Run(c, Start, rest), a, h);
    }
  }
}
