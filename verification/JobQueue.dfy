/** The job queue shared by concurrent enqueuers and workers: every statement of
    enqueue_job in src/utils/postgres_job_store.py is a step of its own. A run is any
    sequence of actions; one that is not enabled changes nothing. */
module JobQueue {
  import opened Basics
  import opened JobStores

  type Enqueuer = nat

  datatype Config = Config(maxQueued: int, maxRetries: int, enqueuers: set<Enqueuer>)

  // The next statement of an enqueue in progress; `now` was read before the first one.
  datatype Phase =
    | Checking(h: Hash, jobType: string, now: int)
    | Counting(h: Hash, jobType: string, now: int)
    | Inserting(h: Hash, jobType: string, now: int)

  // `claims` counts, per job, how often a worker was given it.
  datatype System = System(t: Table, enqueues: map<Enqueuer, Phase>, claims: map<nat, nat>)

  datatype Action =
    | Begin(p: Enqueuer, h: Hash, jobType: string, now: int)
    | Next(p: Enqueuer)
    | Claim(jobType: string, pick: nat)  // enabled when pick is an oldest queued job
    | Finish(id: nat, ok: bool)
    | Requeue                            // a restart, with no worker live

  const Start := System(Table(map[], 0), map[], map[])

  function ClaimsOf(s: System, id: nat): nat {
    if id in s.claims then s.claims[id] else 0
  }

  function DoNext(c: Config, s: System, p: Enqueuer): System
    requires p in s.enqueues
  {
    var ph := s.enqueues[p];
    match ph
    case Checking(h, jobType, now) =>
      if s.t.ActiveIds(h, jobType) != {} then s.(enqueues := s.enqueues - {p})
      else s.(enqueues := s.enqueues[p := Counting(h, jobType, now)])
    case Counting(h, jobType, now) =>
      if c.maxQueued > 0 && |s.t.AllQueued()| >= c.maxQueued then s.(enqueues := s.enqueues - {p})
      else s.(enqueues := s.enqueues[p := Inserting(h, jobType, now)])
    case Inserting(h, jobType, now) =>
      s.(t := s.t.Insert(h, jobType, now), enqueues := s.enqueues - {p})
  }

  function Do(c: Config, s: System, a: Action): System {
    match a
    case Begin(p, h, jobType, now) =>
      if p in c.enqueuers && p !in s.enqueues then s.(enqueues := s.enqueues[p := Checking(h, jobType, now)]) else s
    case Next(p) => if p in s.enqueues then DoNext(c, s, p) else s
    case Claim(jobType, pick) =>
      if s.t.IsOldest(jobType, pick)
      then s.(t := s.t.Claim(pick), claims := s.claims[pick := ClaimsOf(s, pick) + 1]) else s
    case Finish(id, ok) => s.(t := s.t.Finish(id, ok))
    case Requeue => s.(t := s.t.Requeue(c.maxRetries))
  }

  function Run(c: Config, s: System, actions: seq<Action>): System
    decreases |actions|
  {
    if actions == [] then s else Run(c, Do(c, s, actions[0]), actions[1..])
  }

  // ---- An undisturbed enqueue ----

  lemma RunCons(c: Config, s: System, a: Action, rest: seq<Action>)
    ensures Run(c, s, [a] + rest) == Run(c, Do(c, s, a), rest)
  {
    assert ([a] + rest)[1..] == rest;
  }

  // The table after an enqueue with no other process in between its statements.
  function Enqueued(c: Config, t: Table, h: Hash, jobType: string, now: int): Table {
    if t.ActiveIds(h, jobType) != {} || (c.maxQueued > 0 && |t.AllQueued()| >= c.maxQueued) then t
    else t.Insert(h, jobType, now)
  }

  lemma NextsOfEnqueue(c: Config, s: System, p: Enqueuer, h: Hash, jobType: string, now: int)
    requires p in s.enqueues && s.enqueues[p] == Checking(h, jobType, now)
    ensures Do(c, Do(c, Do(c, s, Next(p)), Next(p)), Next(p))
         == s.(t := Enqueued(c, s.t, h, jobType, now), enqueues := s.enqueues - {p})
  {
    if s.t.ActiveIds(h, jobType) == {} {
      var s1 := s.(enqueues := s.enqueues[p := Counting(h, jobType, now)]);
      assert Do(c, s, Next(p)) == s1;
      if !(c.maxQueued > 0 && |s.t.AllQueued()| >= c.maxQueued) {
        var s2 := s.(enqueues := s.enqueues[p := Inserting(h, jobType, now)]);
        assert Do(c, s1, Next(p)) == s2;
        assert s2.enqueues - {p} == s.enqueues - {p};
      } else {
        assert s1.enqueues - {p} == s.enqueues - {p};
      }
    }
  }

  // The separate statements of one enqueue, run together, are the enqueue as a whole.
  lemma EnqueueIsItsSteps(c: Config, s: System, p: Enqueuer, h: Hash, jobType: string, now: int)
    requires p in c.enqueuers && p !in s.enqueues
    ensures Run(c, s, [Begin(p, h, jobType, now), Next(p), Next(p), Next(p)])
         == s.(t := Enqueued(c, s.t, h, jobType, now))
  {
    var n := Next(p);
    var s1 := Do(c, s, Begin(p, h, jobType, now));
    var s2 := Do(c, s1, n);
    var s3 := Do(c, s2, n);
    NextsOfEnqueue(c, s1, p, h, jobType, now);
    assert s1.enqueues - {p} == s.enqueues;
    RunCons(c, s3, n, []);
    RunCons(c, s2, n, [n]);
    RunCons(c, s1, n, [n, n]);
    RunCons(c, s, Begin(p, h, jobType, now), [n, n, n]);
    assert [n] + [] == [n] && [n] + [n] == [n, n] && [n] + [n, n] == [n, n, n];
    assert [Begin(p, h, jobType, now)] + [n, n, n] == [Begin(p, h, jobType, now), n, n, n];
  }

  // ---- One active job per codebase and type; finished jobs stay finished ----

  // A row keeps its identity, and once finished it stays finished.
  predicate Evolves(r: Row, r': Row) {
    && r'.codebase == r.codebase && r'.jobType == r.jobType && r'.created == r.created
    && (!r.Active() ==> !r'.Active())
  }

  ghost predicate RowsEvolve(t: Table, t': Table) {
    forall id | id in t.rows :: id in t'.rows && Evolves(t.rows[id], t'.rows[id])
  }

  // The rows of t' beyond those of t were queued while no job like them was active.
  ghost predicate NewRowsAreFresh(t: Table, t': Table) {
    forall id | id in t'.rows && id !in t.rows ::
      t'.rows[id].status.Queued? && t.ActiveIds(t'.rows[id].codebase, t'.rows[id].jobType) == {}
  }

  lemma SameRowsStayValid(t: Table, t': Table)
    requires ValidTable(t) && t'.rows.Keys == t.rows.Keys && RowsEvolve(t, t') && t'.nextId == t.nextId
    ensures ValidTable(t') && NewRowsAreFresh(t, t')
  {
  }

  lemma NextOnRows(c: Config, s: System, p: Enqueuer)
    requires ValidTable(s.t) && p in s.enqueues
    ensures var t' := DoNext(c, s, p).t;
            ValidTable(t') && RowsEvolve(s.t, t') && NewRowsAreFresh(s.t, t')
  {
    if s.enqueues[p].Inserting? {
      InsertValid(s.t, s.enqueues[p].h, s.enqueues[p].jobType, s.enqueues[p].now);
    }
  }

  // The only row a step can add is a fresh queued one.
  lemma DoOnRows(c: Config, s: System, a: Action)
    requires ValidTable(s.t)
    ensures var t' := Do(c, s, a).t;
            ValidTable(t') && RowsEvolve(s.t, t') && NewRowsAreFresh(s.t, t')
  {
    match a
    case Begin(_, _, _, _) =>
    case Next(p) =>
      if p in s.enqueues {
        NextOnRows(c, s, p);
      }
    case Claim(_, _) => SameRowsStayValid(s.t, Do(c, s, a).t);
    case Finish(_, _) => SameRowsStayValid(s.t, Do(c, s, a).t);
    case Requeue => SameRowsStayValid(s.t, Do(c, s, a).t);
  }

  lemma {:induction false} RunOnRows(c: Config, s: System, actions: seq<Action>)
    requires ValidTable(s.t)
    ensures ValidTable(Run(c, s, actions).t) && RowsEvolve(s.t, Run(c, s, actions).t)
    decreases |actions|
  {
    if actions == [] {
    } else {
      DoOnRows(c, s, actions[0]);
      RunOnRows(c, Do(c, s, actions[0]), actions[1..]);
    }
  }

  // In every reachable table no two active jobs share a codebase and type.
  lemma AtMostOneActiveJob(c: Config, actions: seq<Action>, h: Hash, jobType: string)
    ensures |Run(c, Start, actions).t.ActiveIds(h, jobType)| <= 1
  {
    RunOnRows(c, Start, actions);
    var ids := Run(c, Start, actions).t.ActiveIds(h, jobType);
    if ids != {} {
      var id := AnyOf(ids);
      assert ids == {id};
    }
  }

  // A second job for the same codebase and type is inserted only after the first has
  // finished, and the first never becomes active again.
  lemma ResubmitOnlyAfterFinish(c: Config, before: seq<Action>, between: seq<Action>, a: Action,
                                after: seq<Action>, first: nat, second: nat)
    requires var s := Run(c, Start, before);
             var s' := Run(c, s, between);
             && first in s.t.rows
             && second !in s'.t.rows && second in Do(c, s', a).t.rows
             && Do(c, s', a).t.rows[second].codebase == s.t.rows[first].codebase
             && Do(c, s', a).t.rows[second].jobType == s.t.rows[first].jobType
    ensures var s' := Run(c, Run(c, Start, before), between);
            && first in s'.t.rows && !s'.t.rows[first].Active()
            && first in Run(c, s', after).t.rows && !Run(c, s', after).t.rows[first].Active()
  {
    var s := Run(c, Start, before);
    var s' := Run(c, s, between);
    RunOnRows(c, Start, before);
    RunOnRows(c, s, between);
    DoOnRows(c, s', a);
    var h, jobType := s.t.rows[first].codebase, s.t.rows[first].jobType;
    assert forall id | id in s'.t.rows && s'.t.rows[id].Active() && s'.t.rows[id].codebase == h
                       && s'.t.rows[id].jobType == jobType :: id in s'.t.ActiveIds(h, jobType);
    RunOnRows(c, s', after);
  }

  // ---- How far concurrent enqueuers can overshoot the queue limit ----

  function Pending(s: System): set<Enqueuer> {
    set p | p in s.enqueues && s.enqueues[p].Inserting?
  }

  ghost predicate QueueBound(c: Config, s: System) {
    && s.enqueues.Keys <= c.enqueuers
    && |s.t.AllQueued()| + |Pending(s)| <= c.maxQueued - 1 + |c.enqueuers|
  }

  lemma PendingBound(c: Config, s: System)
    requires s.enqueues.Keys <= c.enqueuers
    ensures |Pending(s)| <= |c.enqueuers|
  {
    SubsetSize(Pending(s), c.enqueuers);
  }

  lemma {:induction false} SubsetSize<T>(a: set<T>, b: set<T>)
    requires a <= b
    ensures |a| <= |b|
  {
    assert b == a + (b - a);
  }

  lemma NextKeepsQueueBound(c: Config, s: System, p: Enqueuer)
    requires c.maxQueued > 0 && ValidTable(s.t) && QueueBound(c, s) && p in s.enqueues
    ensures QueueBound(c, DoNext(c, s, p))
  {
    var s' := DoNext(c, s, p);
    match s.enqueues[p]
    case Checking(_, _, _) =>
      assert Pending(s') == Pending(s);
    case Counting(_, _, _) =>
      if s'.t == s.t && p !in s'.enqueues {
        assert Pending(s') == Pending(s);
      } else {
        PendingBound(c, s');
      }
    case Inserting(h, jobType, now) =>
      assert p in Pending(s) && Pending(s') == Pending(s) - {p};
      assert s'.t.AllQueued() <= s.t.AllQueued() + {s.t.nextId};
      SubsetSize(s'.t.AllQueued(), s.t.AllQueued() + {s.t.nextId});
  }

  lemma DoKeepsQueueBound(c: Config, s: System, a: Action)
    requires c.maxQueued > 0 && ValidTable(s.t) && QueueBound(c, s) && !a.Requeue?
    ensures QueueBound(c, Do(c, s, a))
  {
    var s' := Do(c, s, a);
    match a
    case Begin(_, _, _, _) =>
      assert Pending(s') == Pending(s);
    case Next(p) =>
      if p in s.enqueues {
        NextKeepsQueueBound(c, s, p);
      }
    case Claim(_, _) => SubsetSize(s'.t.AllQueued(), s.t.AllQueued());
    case Finish(_, _) => SubsetSize(s'.t.AllQueued(), s.t.AllQueued());
  }

  lemma {:induction false} RunKeepsQueueBound(c: Config, s: System, actions: seq<Action>)
    requires c.maxQueued > 0 && ValidTable(s.t) && QueueBound(c, s) && Requeue !in actions
    ensures QueueBound(c, Run(c, s, actions))
    decreases |actions|
  {
    if actions == [] {
    } else {
      DoOnRows(c, s, actions[0]);
      DoKeepsQueueBound(c, s, actions[0]);
      RunKeepsQueueBound(c, Do(c, s, actions[0]), actions[1..]);
    }
  }

  // With N enqueuers and no restart the queue holds at most maxQueued - 1 + N jobs.
  lemma QueueOvershootIsBounded(c: Config, actions: seq<Action>)
    requires c.maxQueued > 0 && c.enqueuers != {} && Requeue !in actions
    ensures |Run(c, Start, actions).t.AllQueued()| <= c.maxQueued - 1 + |c.enqueuers|
  {
    assert Start.t.AllQueued() == {} && Pending(Start) == {};
    RunKeepsQueueBound(c, Start, actions);
  }

  // ---- The overshoot is reached ----

  lemma {:induction false} RunAppend(c: Config, s: System, a: seq<Action>, b: seq<Action>)
    ensures Run(c, s, a + b) == Run(c, Run(c, s, a), b)
    decreases |a|
  {
    if a == [] {
      assert a + b == b;
    } else {
      assert (a + b)[1..] == a[1..] + b;
      RunAppend(c, Do(c, s, a[0]), a[1..], b);
    }
  }

  // n jobs, all queued, of codebases below the given number.
  ghost predicate Holds(t: Table, n: nat, base: nat) {
    ValidTable(t) && |t.AllQueued()| == n && forall id | id in t.rows :: t.rows[id].codebase < base
  }

  lemma InsertCounts(t: Table, h: Hash, jobType: string, now: int)
    requires ValidTable(t) && forall id | id in t.rows :: t.rows[id].codebase != h
    ensures t.ActiveIds(h, jobType) == {} && ValidTable(t.Insert(h, jobType, now))
    ensures |t.Insert(h, jobType, now).AllQueued()| == |t.AllQueued()| + 1
  {
    InsertValid(t, h, jobType, now);
    assert t.Insert(h, jobType, now).AllQueued() == t.AllQueued() + {t.nextId};
  }

  // One enqueuer after the other fills the queue, as long as the limit allows.
  lemma {:induction false} FillQueue(c: Config, p: Enqueuer, jobType: string, n: nat) returns (actions: seq<Action>)
    requires p in c.enqueuers && n <= c.maxQueued
    ensures Requeue !in actions
    ensures var s := Run(c, Start, actions); s.enqueues == map[] && Holds(s.t, n, n)
  {
    if n == 0 {
      actions := [];
      assert Start.t.AllQueued() == {};
    } else {
      var before := FillQueue(c, p, jobType, n - 1);
      var s := Run(c, Start, before);
      var enqueue := [Begin(p, n - 1, jobType, 0), Next(p), Next(p), Next(p)];
      actions := before + enqueue;
      InsertCounts(s.t, n - 1, jobType, 0);
      EnqueueIsItsSteps(c, s, p, n - 1, jobType, 0);
      RunAppend(c, Start, before, enqueue);
    }
  }

  // Enqueuer p is about to insert a job of a codebase of its own.
  function Ready(base: nat, ps: set<Enqueuer>, jobType: string): map<Enqueuer, Phase> {
    map p | p in ps :: Inserting(base + p, jobType, 0)
  }

  // Below the limit, any number of enqueuers pass the count before one of them inserts.
  lemma {:induction false} AllCount(c: Config, s: System, base: nat, n: nat, ps: set<Enqueuer>, jobType: string)
    returns (actions: seq<Action>)
    requires ps <= c.enqueuers && s.enqueues == map[] && Holds(s.t, n, base) && n < c.maxQueued
    ensures Requeue !in actions
    ensures Run(c, s, actions) == s.(enqueues := Ready(base, ps, jobType))
    decreases |ps|
  {
    if ps == {} {
      actions := [];
      assert Ready(base, ps, jobType) == map[];
    } else {
      var p := AnyOf(ps);
      var before := AllCount(c, s, base, n, ps - {p}, jobType);
      var count := [Begin(p, base + p, jobType, 0), Next(p), Next(p)];
      actions := before + count;
      RunAppend(c, s, before, count);
      assert s.t.ActiveIds(base + p, jobType) == {};
      CountStep(c, s.(enqueues := Ready(base, ps - {p}, jobType)), p, base + p, jobType, 0);
      assert Ready(base, ps - {p}, jobType)[p := Inserting(base + p, jobType, 0)] == Ready(base, ps, jobType);
    }
  }

  lemma CountStep(c: Config, s: System, p: Enqueuer, h: Hash, jobType: string, now: int)
    requires p in c.enqueuers && p !in s.enqueues
    requires s.t.ActiveIds(h, jobType) == {} && (c.maxQueued > 0 ==> |s.t.AllQueued()| < c.maxQueued)
    ensures Run(c, s, [Begin(p, h, jobType, now), Next(p), Next(p)])
         == s.(enqueues := s.enqueues[p := Inserting(h, jobType, now)])
  {
    var s1 := s.(enqueues := s.enqueues[p := Checking(h, jobType, now)]);
    var s2 := s.(enqueues := s.enqueues[p := Counting(h, jobType, now)]);
    var s3 := s.(enqueues := s.enqueues[p := Inserting(h, jobType, now)]);
    assert Do(c, s1, Next(p)) == s2 && Do(c, s2, Next(p)) == s3;
    RunCons(c, s2, Next(p), []);
    RunCons(c, s1, Next(p), [Next(p)]);
    RunCons(c, s, Begin(p, h, jobType, now), [Next(p), Next(p)]);
    assert [Next(p)] + [] == [Next(p)] && [Next(p)] + [Next(p)] == [Next(p), Next(p)];
    assert [Begin(p, h, jobType, now)] + [Next(p), Next(p)] == [Begin(p, h, jobType, now), Next(p), Next(p)];
  }

  // Then each of them inserts, whatever the limit.
  lemma {:induction false} AllInsert(c: Config, s: System, base: nat, ps: set<Enqueuer>, jobType: string)
    returns (actions: seq<Action>)
    requires ValidTable(s.t) && s.enqueues == Ready(base, ps, jobType)
    requires forall id, p | id in s.t.rows && p in ps :: s.t.rows[id].codebase != base + p
    ensures Requeue !in actions
    ensures |Run(c, s, actions).t.AllQueued()| == |s.t.AllQueued()| + |ps|
    decreases |ps|
  {
    if ps == {} {
      actions := [];
    } else {
      var p := AnyOf(ps);
      InsertCounts(s.t, base + p, jobType, 0);
      var s' := Do(c, s, Next(p));
      assert s'.t == s.t.Insert(base + p, jobType, 0);
      assert s'.enqueues == Ready(base, ps - {p}, jobType);
      var rest := AllInsert(c, s', base, ps - {p}, jobType);
      actions := [Next(p)] + rest;
      RunCons(c, s, Next(p), rest);
    }
  }

  // For every limit and any number of enqueuers some run without a restart gets there.
  lemma OvershootIsReached(c: Config, jobType: string) returns (actions: seq<Action>)
    requires c.maxQueued > 0 && c.enqueuers != {}
    ensures Requeue !in actions
    ensures |Run(c, Start, actions).t.AllQueued()| == c.maxQueued - 1 + |c.enqueuers|
  {
    var p := AnyOf(c.enqueuers);
    var n := c.maxQueued - 1;
    var fill := FillQueue(c, p, jobType, n);
    var s := Run(c, Start, fill);
    var count := AllCount(c, s, n, n, c.enqueuers, jobType);
    var insert := AllInsert(c, s.(enqueues := Ready(n, c.enqueuers, jobType)), n, c.enqueuers, jobType);
    actions := fill + count + insert;
    RunAppend(c, Start, fill, count);
    RunAppend(c, Start, fill + count, insert);
  }

  // So the limit holds in every run without a restart exactly when there is one enqueuer.
  lemma LimitHoldsIffOneEnqueuer(c: Config)
    requires c.maxQueued > 0 && c.enqueuers != {}
    ensures (forall actions | Requeue !in actions :: |Run(c, Start, actions).t.AllQueued()| <= c.maxQueued)
       <==> |c.enqueuers| == 1
  {
    var worst := OvershootIsReached(c, "");
    forall actions | Requeue !in actions
      ensures |Run(c, Start, actions).t.AllQueued()| <= c.maxQueued - 1 + |c.enqueuers|
    {
      QueueOvershootIsBounded(c, actions);
    }
  }

  // ---- How often a job can be claimed ----

  // floor(m / 2) + 1, which is ceil((m + 1) / 2).
  function MaxClaims(maxRetries: int): int {
    if maxRetries < 0 then 1 else maxRetries / 2 + 1
  }

  predicate TallyOk(r: Row, n: nat, maxRetries: int) {
    match r.status
    case Queued => r.attempts == 2 * n && (n > 0 ==> r.attempts <= maxRetries)
    case Running => r.attempts == 2 * n - 1 && n <= MaxClaims(maxRetries)
    case _ => n <= MaxClaims(maxRetries)
  }

  ghost predicate ClaimsTally(c: Config, s: System) {
    && (forall id | id in s.claims :: id in s.t.rows)
    && (forall id | id in s.t.rows :: TallyOk(s.t.rows[id], ClaimsOf(s, id), c.maxRetries))
  }

  lemma ClaimKeepsTally(r: Row, n: nat, maxRetries: int)
    requires TallyOk(r, n, maxRetries) && r.status.Queued?
    ensures TallyOk(r.(status := Running, attempts := r.attempts + 1), n + 1, maxRetries)
  {
  }

  lemma DoKeepsClaimsTally(c: Config, s: System, a: Action)
    requires ValidTable(s.t) && ClaimsTally(c, s)
    ensures ClaimsTally(c, Do(c, s, a))
  {
    match a
    case Begin(_, _, _, _) =>
    case Next(p) =>
      if p in s.enqueues {
        NextKeepsClaimsTally(c, s, p);
      }
    case Claim(jobType, pick) =>
      if s.t.IsOldest(jobType, pick) {
        ClaimKeepsClaimsTally(c, s, jobType, pick);
      }
    case Finish(id, ok) => FinishKeepsClaimsTally(c, s, id, ok);
    case Requeue => RequeueKeepsClaimsTally(c, s);
  }

  lemma NextKeepsClaimsTally(c: Config, s: System, p: Enqueuer)
    requires ValidTable(s.t) && ClaimsTally(c, s) && p in s.enqueues
    ensures ClaimsTally(c, DoNext(c, s, p))
  {
  }

  lemma FinishKeepsClaimsTally(c: Config, s: System, id: nat, ok: bool)
    requires ClaimsTally(c, s)
    ensures ClaimsTally(c, Do(c, s, Finish(id, ok)))
  {
    var s' := Do(c, s, Finish(id, ok));
    forall k | k in s'.t.rows ensures TallyOk(s'.t.rows[k], ClaimsOf(s', k), c.maxRetries) {
      assert TallyOk(s.t.rows[k], ClaimsOf(s, k), c.maxRetries);
    }
  }

  lemma RequeueKeepsClaimsTally(c: Config, s: System)
    requires ClaimsTally(c, s)
    ensures ClaimsTally(c, Do(c, s, Requeue))
  {
    var s' := Do(c, s, Requeue);
    forall k | k in s'.t.rows ensures TallyOk(s'.t.rows[k], ClaimsOf(s', k), c.maxRetries) {
      assert TallyOk(s.t.rows[k], ClaimsOf(s, k), c.maxRetries);
    }
  }

  lemma ClaimKeepsClaimsTally(c: Config, s: System, jobType: string, pick: nat)
    requires ClaimsTally(c, s) && s.t.IsOldest(jobType, pick)
    ensures ClaimsTally(c, Do(c, s, Claim(jobType, pick)))
  {
    var s' := Do(c, s, Claim(jobType, pick));
    forall k | k in s'.t.rows ensures TallyOk(s'.t.rows[k], ClaimsOf(s', k), c.maxRetries) {
      assert TallyOk(s.t.rows[k], ClaimsOf(s, k), c.maxRetries);
      ClaimKeepsTally(s.t.rows[pick], ClaimsOf(s, pick), c.maxRetries);
    }
  }

  lemma {:induction false} RunKeepsClaimsTally(c: Config, s: System, actions: seq<Action>)
    requires ValidTable(s.t) && ClaimsTally(c, s)
    ensures ClaimsTally(c, Run(c, s, actions))
    decreases |actions|
  {
    if actions == [] {
    } else {
      DoOnRows(c, s, actions[0]);
      DoKeepsClaimsTally(c, s, actions[0]);
      RunKeepsClaimsTally(c, Do(c, s, actions[0]), actions[1..]);
    }
  }

  // Over any sequence of crashes and restarts no job is claimed more often than that.
  lemma ClaimsAreBounded(c: Config, actions: seq<Action>, id: nat)
    ensures ClaimsOf(Run(c, Start, actions), id) <= MaxClaims(c.maxRetries)
  {
    RunKeepsClaimsTally(c, Start, actions);
  }

  // A table with one job, queued after n claims and n restarts.
  ghost predicate OneJob(s: System, h: Hash, jobType: string, n: nat) {
    && s.t.rows == map[0 := Row(h, jobType, Queued, 2 * n, 0)]
    && ClaimsOf(s, 0) == n
  }

  lemma ClaimThenRestart(c: Config, s: System, h: Hash, jobType: string, n: nat)
    requires OneJob(s, h, jobType, n)
    ensures ClaimsOf(Do(c, s, Claim(jobType, 0)), 0) == n + 1
    ensures 2 * n + 1 < c.maxRetries ==>
              OneJob(Do(c, Do(c, s, Claim(jobType, 0)), Requeue), h, jobType, n + 1)
  {
    assert s.t.IsOldest(jobType, 0);
  }

  lemma {:induction false} ClaimsGoOn(c: Config, s: System, h: Hash, jobType: string, n: nat)
    returns (actions: seq<Action>)
    requires OneJob(s, h, jobType, n) && n < MaxClaims(c.maxRetries)
    ensures ClaimsOf(Run(c, s, actions), 0) == MaxClaims(c.maxRetries)
    decreases MaxClaims(c.maxRetries) - n
  {
    ClaimThenRestart(c, s, h, jobType, n);
    var a := Claim(jobType, 0);
    if n + 1 == MaxClaims(c.maxRetries) {
      actions := [a];
      assert Run(c, s, actions) == Run(c, Do(c, s, a), []);
    } else {
      var rest := ClaimsGoOn(c, Do(c, Do(c, s, a), Requeue), h, jobType, n + 1);
      actions := [a, Requeue] + rest;
      assert actions[1..] == [Requeue] + rest && ([Requeue] + rest)[1..] == rest;
    }
  }

  // The bound is met: one enqueue, then claims and restarts in turn, reach it.
  lemma ClaimsReachTheBound(c: Config, h: Hash, jobType: string) returns (actions: seq<Action>)
    requires c.enqueuers != {}
    ensures ClaimsOf(Run(c, Start, actions), 0) == MaxClaims(c.maxRetries)
  {
    var p := AnyOf(c.enqueuers);
    var enqueue := [Begin(p, h, jobType, 0), Next(p), Next(p), Next(p)];
    EnqueueIsItsSteps(c, Start, p, h, jobType, 0);
    assert Start.t.ActiveIds(h, jobType) == {} && Start.t.AllQueued() == {};
    var s := Run(c, Start, enqueue);
    assert OneJob(s, h, jobType, 0);
    var rest := ClaimsGoOn(c, s, h, jobType, 0);
    actions := enqueue + rest;
    RunAppend(c, Start, enqueue, rest);
  }
}
