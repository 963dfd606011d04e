/** The place of a queued job among the jobs of its type, as queue_position reports it, and
    the claims of claim_next_job that move it. */
module JobLine {
  import opened Basics
  import opened JobStores
  import opened JobQueue

  // j is queued and no other queued job of its type has the same creation time.
  ghost predicate InLine(s: System, j: nat) {
    && j in s.t.rows && s.t.rows[j].status.Queued?
    && forall other | other in s.t.QueuedOf(s.t.rows[j].jobType) && other != j ::
         s.t.rows[other].created != s.t.rows[j].created
  }

  predicate StillQueued(s: System, j: nat) {
    j in s.t.rows && s.t.rows[j].status.Queued?
  }

  // The position queue_position reports.
  function Position(s: System, j: nat): (k: nat)
    requires j in s.t.rows
    ensures k >= 1
  {
    |s.t.Ahead(s.t.rows[j].jobType, s.t.rows[j].created)| + 1
  }

  // The step inserts a job of the type, created at the given time.
  predicate InsertsAt(s: System, a: Action, jobType: string, now: int) {
    && a.Next? && a.p in s.enqueues && s.enqueues[a.p].Inserting?
    && s.enqueues[a.p].jobType == jobType && s.enqueues[a.p].now == now
    && s.t.ActiveIds(s.enqueues[a.p].h, jobType) == {}
  }

  // It inserts one whose enqueuer read the clock earlier.
  predicate Overtakes(s: System, a: Action, jobType: string, created: int) {
    a.Next? && a.p in s.enqueues && s.enqueues[a.p].now < created && InsertsAt(s, a, jobType, s.enqueues[a.p].now)
  }

  predicate Serves(s: System, a: Action, jobType: string) {
    a.Claim? && a.jobType == jobType && s.t.IsOldest(jobType, a.pick)
  }

  function Served(c: Config, s: System, actions: seq<Action>, jobType: string): nat
    decreases |actions|
  {
    if actions == [] then 0
    else (if Serves(s, actions[0], jobType) then 1 else 0) + Served(c, Do(c, s, actions[0]), actions[1..], jobType)
  }

  function Overtaken(c: Config, s: System, actions: seq<Action>, jobType: string, created: int): nat
    decreases |actions|
  {
    if actions == [] then 0
    else (if Overtakes(s, actions[0], jobType, created) then 1 else 0)
         + Overtaken(c, Do(c, s, actions[0]), actions[1..], jobType, created)
  }

  // No restart, workers finish nothing that still waits, and no creation time occurs twice.
  predicate Orderly(s: System, a: Action, jobType: string, created: int) {
    match a
    case Requeue => false
    case Finish(id, _) => !StillQueued(s, id)
    case _ => !InsertsAt(s, a, jobType, created)
  }

  ghost predicate OrderlyRun(c: Config, s: System, actions: seq<Action>, jobType: string, created: int)
    decreases |actions|
  {
    actions == []
    || (Orderly(s, actions[0], jobType, created)
        && OrderlyRun(c, Do(c, s, actions[0]), actions[1..], jobType, created))
  }

  // A claim takes j exactly when j is first in line, and otherwise someone ahead of it.
  lemma ClaimTakesTheFirst(s: System, a: Action, j: nat)
    requires InLine(s, j) && Serves(s, a, s.t.rows[j].jobType)
    ensures a.pick == j <==> Position(s, j) == 1
    ensures a.pick != j ==> a.pick in s.t.Ahead(s.t.rows[j].jobType, s.t.rows[j].created)
  {
    var ahead := s.t.Ahead(s.t.rows[j].jobType, s.t.rows[j].created);
    assert j in s.t.QueuedOf(s.t.rows[j].jobType);
    if a.pick != j {
      assert a.pick in ahead;
    } else {
      assert ahead == {};
    }
  }

  // How one step moves j, if it does not hand j out.
  lemma StepMovesTheLine(c: Config, s: System, a: Action, j: nat)
    requires ValidTable(s.t) && InLine(s, j) && Orderly(s, a, s.t.rows[j].jobType, s.t.rows[j].created)
    requires !(a.Claim? && a.pick == j && s.t.IsOldest(a.jobType, j))
    ensures InLine(Do(c, s, a), j) && Do(c, s, a).t.rows[j] == s.t.rows[j]
    ensures var jobType, created := s.t.rows[j].jobType, s.t.rows[j].created;
            Position(Do(c, s, a), j) == Position(s, j) - (if Serves(s, a, jobType) then 1 else 0)
                                                       + (if Overtakes(s, a, jobType, created) then 1 else 0)
  {
    if Serves(s, a, s.t.rows[j].jobType) {
      ServeMovesTheLine(c, s, a, j);
    } else if a.Next? && a.p in s.enqueues {
      NextMovesTheLine(c, s, a.p, j);
    } else {
      OtherStepLeavesTheLine(c, s, a, j);
    }
  }

  lemma ServeMovesTheLine(c: Config, s: System, a: Action, j: nat)
    requires InLine(s, j) && Serves(s, a, s.t.rows[j].jobType) && a.pick != j
    ensures InLine(Do(c, s, a), j) && Do(c, s, a).t.rows[j] == s.t.rows[j]
    ensures Position(Do(c, s, a), j) == Position(s, j) - 1
  {
    var jobType, created := s.t.rows[j].jobType, s.t.rows[j].created;
    ClaimTakesTheFirst(s, a, j);
    assert Do(c, s, a).t.Ahead(jobType, created) == s.t.Ahead(jobType, created) - {a.pick};
  }

  lemma NextMovesTheLine(c: Config, s: System, p: Enqueuer, j: nat)
    requires ValidTable(s.t) && InLine(s, j) && p in s.enqueues
    requires !InsertsAt(s, Next(p), s.t.rows[j].jobType, s.t.rows[j].created)
    ensures InLine(Do(c, s, Next(p)), j) && Do(c, s, Next(p)).t.rows[j] == s.t.rows[j]
    ensures Position(Do(c, s, Next(p)), j)
         == Position(s, j) + if Overtakes(s, Next(p), s.t.rows[j].jobType, s.t.rows[j].created) then 1 else 0
  {
    var ph := s.enqueues[p];
    if ph.Inserting? {
      InsertMovesTheLine(s.t, ph.h, ph.jobType, ph.now, s.t.rows[j].jobType, s.t.rows[j].created);
    } else {
      assert Do(c, s, Next(p)).t == s.t;
    }
  }

  lemma InsertMovesTheLine(t: Table, h: Hash, jobType: string, now: int, ofType: string, created: int)
    requires ValidTable(t)
    ensures var t' := t.Insert(h, jobType, now);
            && (forall id | id in t.rows :: id in t'.rows && t'.rows[id] == t.rows[id])
            && (forall id | id in t'.QueuedOf(ofType) && id !in t.rows ::
                  t.ActiveIds(h, jobType) == {} && jobType == ofType && t'.rows[id].created == now)
            && |t'.Ahead(ofType, created)|
               == |t.Ahead(ofType, created)|
                  + if t.ActiveIds(h, jobType) == {} && jobType == ofType && now < created then 1 else 0
  {
    if t.ActiveIds(h, jobType) == {} {
      AheadOfNewRow(t, Row(h, jobType, Queued, 0, now), ofType, created);
    } else {
      assert t.Insert(h, jobType, now).Ahead(ofType, created) == t.Ahead(ofType, created);
    }
  }

  lemma AheadOfNewRow(t: Table, r: Row, ofType: string, created: int)
    requires ValidTable(t) && r.status.Queued?
    ensures var t' := Table(t.rows[t.nextId := r], t.nextId + 1);
            t'.Ahead(ofType, created)
            == t.Ahead(ofType, created) + if r.jobType == ofType && r.created < created then {t.nextId} else {}
  {
  }

  lemma OtherStepLeavesTheLine(c: Config, s: System, a: Action, j: nat)
    requires InLine(s, j) && !Serves(s, a, s.t.rows[j].jobType) && !(a.Next? && a.p in s.enqueues)
    requires Orderly(s, a, s.t.rows[j].jobType, s.t.rows[j].created)
    ensures InLine(Do(c, s, a), j) && Do(c, s, a).t.rows[j] == s.t.rows[j]
    ensures Position(Do(c, s, a), j) == Position(s, j)
  {
    var jobType, created := s.t.rows[j].jobType, s.t.rows[j].created;
    if a.Claim? && s.t.IsOldest(a.jobType, a.pick) {
      assert s.t.rows[a.pick].jobType != jobType;
    }
    assert Do(c, s, a).t.Ahead(jobType, created) == s.t.Ahead(jobType, created);
  }

  // Once handed out, a job does not come back without a restart.
  lemma {:induction false} HandedOutForGood(c: Config, s: System, actions: seq<Action>, j: nat, jobType: string, created: int)
    requires ValidTable(s.t) && j in s.t.rows && !StillQueued(s, j) && OrderlyRun(c, s, actions, jobType, created)
    ensures !StillQueued(Run(c, s, actions), j)
    decreases |actions|
  {
    if actions == [] {
    } else {
      DoOnRows(c, s, actions[0]);
      HandedOutForGood(c, Do(c, s, actions[0]), actions[1..], j, jobType, created);
    }
  }

  // The line accounts for itself: while j waits, every claim of its type moves it up by one,
  // every job inserted with an earlier creation time moves it down by one, nothing else counts.
  lemma {:induction false} LineAdvances(c: Config, s: System, actions: seq<Action>, j: nat)
    requires ValidTable(s.t) && InLine(s, j)
    requires OrderlyRun(c, s, actions, s.t.rows[j].jobType, s.t.rows[j].created)
    requires StillQueued(Run(c, s, actions), j)
    ensures var s' := Run(c, s, actions);
            && InLine(s', j) && s'.t.rows[j] == s.t.rows[j]
            && Position(s', j) == Position(s, j) - Served(c, s, actions, s.t.rows[j].jobType)
                                  + Overtaken(c, s, actions, s.t.rows[j].jobType, s.t.rows[j].created)
    decreases |actions|
  {
    if actions == [] {
    } else {
      var a := actions[0];
      DoOnRows(c, s, a);
      if a.Claim? && a.pick == j && s.t.IsOldest(a.jobType, j) {
        HandedOutForGood(c, Do(c, s, a), actions[1..], j, s.t.rows[j].jobType, s.t.rows[j].created);
      } else {
        StepMovesTheLine(c, s, a, j);
        LineAdvances(c, Do(c, s, a), actions[1..], j);
      }
    }
  }

  // Fewer claims of its type than its position cannot reach it.
  lemma {:induction false} NotServedBefore(c: Config, s: System, actions: seq<Action>, j: nat)
    requires ValidTable(s.t) && InLine(s, j)
    requires OrderlyRun(c, s, actions, s.t.rows[j].jobType, s.t.rows[j].created)
    requires Served(c, s, actions, s.t.rows[j].jobType) < Position(s, j)
    ensures StillQueued(Run(c, s, actions), j)
    decreases |actions|
  {
    if actions == [] {
    } else {
      var a := actions[0];
      DoOnRows(c, s, a);
      if Serves(s, a, s.t.rows[j].jobType) {
        ClaimTakesTheFirst(s, a, j);
      }
      StepMovesTheLine(c, s, a, j);
      NotServedBefore(c, Do(c, s, a), actions[1..], j);
    }
  }

  // A claim hands j out exactly when the claims of its type before it were its position less
  // one and one for each job that overtook it; so it is the claim its position announced
  // exactly when nobody did.
  lemma ServedByExactlyTheKthClaim(c: Config, s: System, actions: seq<Action>, a: Action, j: nat)
    requires ValidTable(s.t) && InLine(s, j)
    requires OrderlyRun(c, s, actions, s.t.rows[j].jobType, s.t.rows[j].created)
    requires StillQueued(Run(c, s, actions), j) && Serves(Run(c, s, actions), a, s.t.rows[j].jobType)
    ensures var served := Served(c, s, actions, s.t.rows[j].jobType);
            var overtaken := Overtaken(c, s, actions, s.t.rows[j].jobType, s.t.rows[j].created);
            && (a.pick == j <==> served + 1 == Position(s, j) + overtaken)
            && (a.pick == j ==> (served + 1 == Position(s, j) <==> overtaken == 0))
  {
    LineAdvances(c, s, actions, j);
    ClaimTakesTheFirst(Run(c, s, actions), a, j);
  }

  // Order of creation is not order of insertion: of any two enqueuers, the one that read the
  // clock first and inserts last moves the other's job from first place to second.
  lemma SlowEnqueuerOvertakes(c: Config, p: Enqueuer, q: Enqueuer, g: Hash, h: Hash, jobType: string, t0: int, t1: int)
    requires p in c.enqueuers && q in c.enqueuers && p != q && g != h && t0 < t1
    ensures var slow := [Begin(p, g, jobType, t0), Next(p), Next(p)];
            var fast := [Begin(q, h, jobType, t1), Next(q), Next(q), Next(q)];
            var s := Run(c, Start, slow + fast);
            && s.t.rows.Keys == {0} && s.t.rows[0].codebase == h && Position(s, 0) == 1
            && 0 in Run(c, Start, slow + fast + [Next(p)]).t.rows
            && Position(Run(c, Start, slow + fast + [Next(p)]), 0) == 2
  {
    var slow := [Begin(p, g, jobType, t0), Next(p), Next(p)];
    var fast := [Begin(q, h, jobType, t1), Next(q), Next(q), Next(q)];
    var s1 := Start.(enqueues := map[p := Inserting(g, jobType, t0)]);
    assert Start.t.ActiveIds(g, jobType) == {} && Start.t.ActiveIds(h, jobType) == {} && Start.t.AllQueued() == {};
    CountStep(c, Start, p, g, jobType, t0);
    RunAppend(c, Start, slow, fast);
    EnqueueIsItsSteps(c, s1, q, h, jobType, t1);
    var s2 := s1.(t := s1.t.Insert(h, jobType, t1));
    assert Run(c, Start, slow + fast) == s2;
    RunAppend(c, Start, slow + fast, [Next(p)]);
    RunCons(c, s2, Next(p), []);
    assert [Next(p)] + [] == [Next(p)];
    assert s2.t.Ahead(jobType, t1) == {} && s2.t.ActiveIds(g, jobType) == {};
    assert Do(c, s2, Next(p)).t.Ahead(jobType, t1) == {1};
  }
}
