/** How a job ended, told from the calls made: finish_job and the restart of
    src/utils/postgres_job_store.py are the only ones that decide it. */
module JobOutcomes {
  import opened Basics
  import opened JobStores
  import opened JobQueue

  // What the step decides about the job: a success, a failure, or nothing. A worker reports
  // how it ended, and a restart gives up a running job whose attempts are used up.
  function Verdict(c: Config, s: System, a: Action, id: nat): Option<bool> {
    if id !in s.t.rows then None
    else match a
      case Finish(j, ok) => if j == id then Some(ok) else None
      case Requeue =>
        if s.t.rows[id].status == Running && s.t.rows[id].attempts >= c.maxRetries then Some(false) else None
      case _ => None
  }

  // The last verdict of a run from the empty table.
  function LastVerdict(c: Config, actions: seq<Action>, id: nat): Option<bool>
    decreases |actions|
  {
    if actions == [] then None
    else
      var rest, a := actions[..|actions| - 1], actions[|actions| - 1];
      var v := Verdict(c, Run(c, Start, rest), a, id);
      if v.Some? then v else LastVerdict(c, rest, id)
  }

  // The status tells the verdict, and a job that has none is still to be done.
  predicate Tells(t: Table, id: nat, verdict: Option<bool>) {
    if id in t.rows then
      && (t.rows[id].status == Done <==> verdict == Some(true))
      && (t.rows[id].status == Failed <==> verdict == Some(false))
    else verdict == None
  }

  lemma StepTells(c: Config, s: System, a: Action, id: nat, verdict: Option<bool>)
    requires ValidTable(s.t) && Tells(s.t, id, verdict)
    ensures var v := Verdict(c, s, a, id); Tells(Do(c, s, a).t, id, if v.Some? then v else verdict)
  {
    match a
    case Begin(_, _, _, _) =>
    case Next(p) =>
    case Claim(_, _) =>
    case Finish(_, _) =>
    case Requeue =>
  }

  // A job is done exactly when the last that was decided about it was a worker's success, and
  // failed exactly when that was a worker's failure or a restart giving it up.
  lemma {:induction false} StatusTellsTheLastVerdict(c: Config, actions: seq<Action>, id: nat)
    ensures var t := Run(c, Start, actions).t;
            if id in t.rows then
              && (t.rows[id].status == Done <==> LastVerdict(c, actions, id) == Some(true))
              && (t.rows[id].status == Failed <==> LastVerdict(c, actions, id) == Some(false))
            else LastVerdict(c, actions, id) == None
    decreases |actions|
  {
    if actions == [] {
    } else {
      var rest, a := actions[..|actions| - 1], actions[|actions| - 1];
      StatusTellsTheLastVerdict(c, rest, id);
      RunOnRows(c, Start, rest);
      StepTells(c, Run(c, Start, rest), a, id, LastVerdict(c, rest, id));
      RunAppend(c, Start, rest, [a]);
      RunCons(c, Run(c, Start, rest), a, []);
      assert actions == rest + [a] && [a] + [] == [a];
    }
  }
}
