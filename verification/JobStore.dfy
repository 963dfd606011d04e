/** The durable job table of src/utils/postgres_job_store.py and its operations. */
module JobStores {
  import opened Basics

  datatype Status = Queued | Running | Done | Failed

  datatype Row = Row(codebase: Hash, jobType: string, status: Status, attempts: nat, created: int) {
    predicate Active() {
      status.Queued? || status.Running?
    }
  }

  // What requeue_running_jobs makes of one row.
  function Recovered(r: Row, maxRetries: int): Row {
    if !r.status.Running? then r
    else if r.attempts >= maxRetries then r.(status := Failed)
    else r.(status := Queued, attempts := r.attempts + 1)
  }

  datatype Table = Table(rows: map<nat, Row>, nextId: nat)
  {
    function ActiveIds(h: Hash, jobType: string): set<nat> {
      set id | id in rows && rows[id].codebase == h && rows[id].jobType == jobType && rows[id].Active()
    }

    function AllQueued(): set<nat> {
      set id | id in rows && rows[id].status.Queued?
    }

    function QueuedOf(jobType: string): set<nat> {
      set id | id in rows && rows[id].status.Queued? && rows[id].jobType == jobType
    }

    // Queued jobs of the same type that were created before the given time.
    function Ahead(jobType: string, created: int): set<nat> {
      set id | id in QueuedOf(jobType) && rows[id].created < created
    }

    // The partial unique index turns a second active row away; the id is used up anyway.
    function Insert(h: Hash, jobType: string, created: int): Table {
      if ActiveIds(h, jobType) != {} then this.(nextId := nextId + 1)
      else Table(rows[nextId := Row(h, jobType, Queued, 0, created)], nextId + 1)
    }

    predicate IsOldest(jobType: string, id: nat) {
      id in QueuedOf(jobType) && forall other | other in QueuedOf(jobType) :: rows[id].created <= rows[other].created
    }

    function Claim(id: nat): Table
      requires id in rows
    {
      this.(rows := rows[id := rows[id].(status := Running, attempts := rows[id].attempts + 1)])
    }

    // No check of the current status: the update goes by id alone.
    function Finish(id: nat, ok: bool): Table {
      if id in rows then this.(rows := rows[id := rows[id].(status := if ok then Done else Failed)]) else this
    }

    function Requeue(maxRetries: int): Table {
      this.(rows := map id | id in rows :: Recovered(rows[id], maxRetries))
    }
  }

  // The unique index on active rows, and ids handed out in order.
  ghost predicate ValidTable(t: Table) {
    && (forall id | id in t.rows :: id < t.nextId)
    && (forall i, j | i in t.rows && j in t.rows && i != j && t.rows[i].Active() && t.rows[j].Active() ::
          t.rows[i].codebase != t.rows[j].codebase || t.rows[i].jobType != t.rows[j].jobType)
  }

  lemma InsertValid(t: Table, h: Hash, jobType: string, created: int)
    requires ValidTable(t)
    ensures ValidTable(t.Insert(h, jobType, created))
  {
    forall id | id in t.rows && t.rows[id].Active() && t.rows[id].codebase == h && t.rows[id].jobType == jobType
      ensures t.ActiveIds(h, jobType) != {}
    {
      assert id in t.ActiveIds(h, jobType);
    }
  }

  lemma {:induction false} OldestIn(t: Table, jobType: string, ids: set<nat>) returns (id: nat)
    requires ids != {} && ids <= t.rows.Keys
    ensures id in ids && forall other | other in ids :: t.rows[id].created <= t.rows[other].created
  {
    id := AnyOf(ids);
    if other :| other in ids && t.rows[other].created < t.rows[id].created {
      var earlier := set other | other in ids && t.rows[other].created < t.rows[id].created;
      assert other in earlier && id !in earlier && earlier <= ids;
      var id' := OldestIn(t, jobType, earlier);
      forall other | other in ids ensures t.rows[id'].created <= t.rows[other].created {
        if t.rows[other].created < t.rows[id].created {
          assert other in earlier;
        }
      }
      id := id';
    }
  }

  lemma OldestExists(t: Table, jobType: string)
    requires t.QueuedOf(jobType) != {}
    ensures exists id :: t.IsOldest(jobType, id)
  {
    var id := OldestIn(t, jobType, t.QueuedOf(jobType));
    assert t.IsOldest(jobType, id);
  }

  // The rows once the running ones outside `todo` have been recovered.
  ghost predicate RecoveredBut(was: map<nat, Row>, now: map<nat, Row>, todo: set<nat>, maxRetries: int) {
    now.Keys == was.Keys
    && forall id | id in was :: now[id] == if id in todo then was[id] else Recovered(was[id], maxRetries)
  }

  lemma RecoverOne(was: map<nat, Row>, now: map<nat, Row>, todo: set<nat>, maxRetries: int, id: nat)
    requires RecoveredBut(was, now, todo, maxRetries) && id in todo && id in was
    ensures RecoveredBut(was, now[id := Recovered(now[id], maxRetries)], todo - {id}, maxRetries)
  {
  }

  lemma RecoveredAll(was: Table, now: Table, maxRetries: int)
    requires ValidTable(was) && now.nextId == was.nextId && RecoveredBut(was.rows, now.rows, {}, maxRetries)
    ensures now == was.Requeue(maxRetries) && ValidTable(now)
  {
  }

  function RunningIds(rows: map<nat, Row>): set<nat> {
    set id | id in rows && rows[id].status.Running?
  }

  datatype Answer = Submitted | Duplicate | QueueFull

  class PostgresJobStore {
    var rows: map<nat, Row>
    var nextId: nat

    ghost function State(): Table
      reads this
    {
      Table(rows, nextId)
    }

    constructor ()
      ensures State() == Table(map[], 0) && ValidTable(State())
    {
      rows, nextId := map[], 0;
    }

    // Enqueue with no other process in between its three statements.
    method EnqueueJob(h: Hash, jobType: string, maxQueued: int, now: int)
      returns (id: Option<nat>, answer: Answer)
      requires ValidTable(State())
      modifies this
      ensures ValidTable(State())
      ensures answer == Duplicate <==> old(State()).ActiveIds(h, jobType) != {}
      ensures answer == Duplicate ==>
                id.Some? && id.value in old(State()).ActiveIds(h, jobType) && State() == old(State())
      ensures answer == QueueFull ==> id == None && State() == old(State())
      ensures answer == QueueFull <==>
                && old(State()).ActiveIds(h, jobType) == {}
                && maxQueued > 0 && |old(State()).AllQueued()| >= maxQueued
      ensures answer == Submitted ==>
                && id == Some(old(nextId)) && State() == old(State()).Insert(h, jobType, now)
                && State().ActiveIds(h, jobType) == {id.value}
    {
      var active := set i | i in rows && rows[i].codebase == h && rows[i].jobType == jobType && rows[i].Active();
      assert active == State().ActiveIds(h, jobType);
      if active != {} {
        var i :| i in active;
        return Some(i), Duplicate;
      }
      if maxQueued > 0 {
        var queued := set i | i in rows && rows[i].status.Queued?;
        assert queued == State().AllQueued();
        if |queued| >= maxQueued {
          return None, QueueFull;
        }
      }
      InsertValid(State(), h, jobType, now);
      id := Some(nextId);
      rows := rows[nextId := Row(h, jobType, Queued, 0, now)];
      nextId := nextId + 1;
      answer := Submitted;
    }

    method ClaimNextJob(jobType: string) returns (id: Option<nat>)
      requires ValidTable(State())
      modifies this
      ensures ValidTable(State())
      ensures id == None <==> old(State()).QueuedOf(jobType) == {}
      ensures id == None ==> State() == old(State())
      ensures id.Some? ==>
                old(State()).IsOldest(jobType, id.value) && State() == old(State()).Claim(id.value)
    {
      var t := Table(rows, nextId);
      if t.QueuedOf(jobType) == {} {
        return None;
      }
      OldestExists(t, jobType);
      var i :| i in t.QueuedOf(jobType) && t.IsOldest(jobType, i);
      rows := rows[i := rows[i].(status := Running, attempts := rows[i].attempts + 1)];
      id := Some(i);
    }

    method FinishJob(id: nat, ok: bool)
      requires ValidTable(State())
      modifies this
      ensures ValidTable(State()) && nextId == old(nextId) && rows.Keys == old(rows).Keys
      ensures forall k | k in rows ::
                rows[k] == if k == id then old(rows)[k].(status := if ok then Done else Failed) else old(rows)[k]
      ensures State() == old(State()).Finish(id, ok)
    {
      if id in rows {
        rows := rows[id := rows[id].(status := if ok then Done else Failed)];
      }
    }

    // The 1-based position of a codebase's queued job among the queued jobs of its type.
    method QueuePosition(h: Hash, jobType: string) returns (position: Option<nat>)
      requires ValidTable(State())
      ensures position == None <==>
                forall id | id in State().QueuedOf(jobType) :: rows[id].codebase != h
      ensures forall id | id in State().QueuedOf(jobType) && rows[id].codebase == h ::
                position == Some(|State().Ahead(jobType, rows[id].created)| + 1)
    {
      var mine := set i | i in rows && rows[i].codebase == h && rows[i].jobType == jobType && rows[i].status.Queued?;
      if mine == {} {
        assert forall id | id in State().QueuedOf(jobType) && rows[id].codebase == h :: id in mine;
        return None;
      }
      var i :| i in mine;
      assert i in State().QueuedOf(jobType);
      var ahead := set k | k in rows && rows[k].status.Queued? && rows[k].jobType == jobType && rows[k].created < rows[i].created;
      assert ahead == State().Ahead(jobType, rows[i].created);
      position := Some(|ahead| + 1);
    }

    method RequeueRunningJobs(maxRetries: int) returns (count: nat)
      requires ValidTable(State())
      modifies this
      ensures ValidTable(State())
      ensures State() == old(State()).Requeue(maxRetries)
      ensures count == |RunningIds(old(rows))|
    {
      var todo := RunningIds(rows);
      count := 0;
      while todo != {}
        invariant todo <= RunningIds(old(rows)) && count == |RunningIds(old(rows))| - |todo|
        invariant nextId == old(nextId) && RecoveredBut(old(rows), rows, todo, maxRetries)
        decreases todo
      {
        var id :| id in todo;
        RecoverOne(old(rows), rows, todo, maxRetries, id);
        if rows[id].attempts >= maxRetries {
          rows := rows[id := rows[id].(status := Failed)];
        } else {
          rows := rows[id := rows[id].(status := Queued, attempts := rows[id].attempts + 1)];
        }
        todo := todo - {id};
        count := count + 1;
      }
      RecoveredAll(old(State()), State(), maxRetries);
    }
  }
}
