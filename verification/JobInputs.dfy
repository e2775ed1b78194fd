/**
 * The stored input of one job key, the START and END rows of its journal, and every process that touches them:
 * requests that register a job and controllers that pick one up. Leases are left out, so any number of
 * controllers may be at work on the same job; that includes those that have lost theirs without noticing.
 */
module JobInputs {
  import opened Prelude

  datatype Input = Queued | Running | Done

  /** `missing` marks the END row with error code JOB_INPUT_MISSING. A row's id is its position. */
  datatype Row = StartRow | EndRow(missing: bool)

  type Pid = int

  /** Where a process stands; `job` is the id of the START row it picked. */
  datatype Proc =
    | Registering
    | Picked(job: nat)
    | Reading(job: nat)
    | Marking(job: nat)
    | Working(job: nat)
    | NoInput(job: nat)
    | Ending(job: nat, missing: bool)
    | Parking(job: nat)
    | Deleting(job: nat)

  datatype Sys = Sys(input: Option<Input>, rows: seq<Row>, procs: map<Pid, Proc>)

  const INIT: Sys := Sys(None, [], map[])

  datatype Written = Yes | No | Unsure

  datatype Action =
    | SaveInput(p: Pid)
    | WriteStart(p: Pid)
    | UndoSave(p: Pid)
    | Pick(p: Pid, job: nat)
    | Load(p: Pid)
    | ReadMark(p: Pid)
    | WriteMark(p: Pid)
    | FinishWork(p: Pid)
    | LookForEnd(p: Pid, fails: bool)
    | WriteEnd(p: Pid, written: Written)
    | Park(p: Pid)
    | DeleteInput(p: Pid)
    | Die(p: Pid)

  /** An END row belongs to every START row of the key before it. */
  predicate EndedAfter(rows: seq<Row>, job: nat) {
    exists e :: job < e < |rows| && rows[e].EndRow?
  }

  /** No job of this key is unfinished. */
  ghost predicate AllEnded(rows: seq<Row>) {
    forall j :: 0 <= j < |rows| && rows[j].StartRow? ==> EndedAfter(rows, j)
  }

  function Move(s: Sys, p: Pid, proc: Proc): Sys {
    s.(procs := s.procs[p := proc])
  }

  function Leave(s: Sys, p: Pid): Sys {
    s.(procs := s.procs - {p})
  }

  function Act(s: Sys, a: Action): Option<Sys> {
    match a
    case SaveInput(p) =>
      if p in s.procs then None
      else if s.input.Some? then Some(s)
      else Some(Move(s, p, Registering).(input := Some(Queued)))
    case Pick(p, job) =>
      if p in s.procs || job >= |s.rows| || !s.rows[job].StartRow? || EndedAfter(s.rows, job) then None
      else Some(Move(s, p, Picked(job)))
    case _ =>
      if a.p !in s.procs then None else Step(s, a.p, s.procs[a.p], a)
  }

  /** The next thing a process does from where it stands. */
  function Step(s: Sys, p: Pid, proc: Proc, a: Action): Option<Sys>
    requires p in s.procs
  {
    match (proc, a)
    case (_, Die(_)) => Some(Leave(s, p))
    case (Registering, WriteStart(_)) => Some(Leave(s, p).(rows := s.rows + [StartRow]))
    case (Registering, UndoSave(_)) => Some(Leave(s, p).(input := None))
    case (Picked(job), Load(_)) =>
      Some(Move(s, p, match s.input
                      case None => NoInput(job)
                      case Some(Done) => Ending(job, false)
                      case Some(_) => Reading(job)))
    case (Reading(job), ReadMark(_)) => Some(Move(s, p, if s.input.Some? then Marking(job) else Working(job)))
    case (Marking(job), WriteMark(_)) => Some(Move(s, p, Working(job)).(input := Some(Running)))
    case (Working(job), FinishWork(_)) => Some(Move(s, p, Ending(job, false)))
    case (NoInput(job), LookForEnd(_, fails)) =>
      if !fails && EndedAfter(s.rows, job) then Some(Leave(s, p)) else Some(Move(s, p, Ending(job, true)))
    case (Ending(job, missing), WriteEnd(_, written)) =>
      var s' := if written.No? then s else s.(rows := s.rows + [EndRow(missing)]);
      Some(Move(s', p, if written.Yes? then Deleting(job) else Parking(job)))
    case (Parking(_), Park(_)) => Some(Leave(s, p).(input := Some(Done)))
    case (Deleting(_), DeleteInput(_)) => Some(Leave(s, p).(input := None))
    case _ => None
  }

  function Play(s: Sys, actions: seq<Action>): Option<Sys>
    decreases |actions|
  {
    if actions == [] then Some(s)
    else
      match Act(s, actions[0])
      case None => None
      case Some(next) => Play(next, actions[1..])
  }

  /** The input is there, and nobody else is about to delete it. */
  ghost predicate Clear(s: Sys, p: Pid) {
    s.input.Some? && forall q :: q in s.procs && q != p ==> !s.procs[q].Deleting? && !s.procs[q].Registering?
  }

  /** Every START row of the run was written in the clear, and no lookup failed. */
  ghost predicate Orderly(s: Sys, actions: seq<Action>)
    decreases |actions|
  {
    actions == [] ||
    ((actions[0].WriteStart? ==> Clear(s, actions[0].p))
     && (actions[0].LookForEnd? ==> !actions[0].fails)
     && (Act(s, actions[0]).Some? ==> Orderly(Act(s, actions[0]).value, actions[1..])))
  }

  // ---------- a missing input means an ended job ----------

  ghost predicate Inv(s: Sys) {
    && (s.input.None? ==> AllEnded(s.rows))
    && (forall p :: p in s.procs ==>
          match s.procs[p]
          case Registering => AllEnded(s.rows)
          case Deleting(_) => AllEnded(s.rows)
          case NoInput(job) => EndedAfter(s.rows, job)
          case Ending(_, missing) => !missing
          case Picked(job) => job < |s.rows| && s.rows[job].StartRow?
          case _ => true)
    && (forall e :: 0 <= e < |s.rows| ==> s.rows[e] != EndRow(true))
  }

  lemma EndClosesAll(rows: seq<Row>, missing: bool)
    ensures AllEnded(rows + [EndRow(missing)])
    ensures forall j: nat :: EndedAfter(rows, j) ==> EndedAfter(rows + [EndRow(missing)], j)
  {
    var rows' := rows + [EndRow(missing)];
    forall j | 0 <= j < |rows'| && rows'[j].StartRow? ensures EndedAfter(rows', j) {
      assert rows'[|rows|].EndRow?;
    }
    forall j: nat | EndedAfter(rows, j) ensures EndedAfter(rows', j) {
      var e :| j < e < |rows| && rows[e].EndRow?;
      assert rows'[e].EndRow?;
    }
  }

  lemma StartKeepsEnded(rows: seq<Row>, j: nat)
    requires EndedAfter(rows, j)
    ensures EndedAfter(rows + [StartRow], j)
  {
    var e :| j < e < |rows| && rows[e].EndRow?;
    assert (rows + [StartRow])[e].EndRow?;
  }

  lemma ActKeeps(s: Sys, a: Action)
    requires Inv(s) && Act(s, a).Some?
    requires (a.WriteStart? ==> Clear(s, a.p)) && (a.LookForEnd? ==> !a.fails)
    ensures Inv(Act(s, a).value)
  {
    if a.WriteEnd? && !a.written.No? {
      EndClosesAll(s.rows, s.procs[a.p].missing);
    } else if a.WriteStart? {
      forall j: nat | EndedAfter(s.rows, j) ensures EndedAfter(s.rows + [StartRow], j) {
        StartKeepsEnded(s.rows, j);
      }
    }
  }

  lemma {:induction false} PlayKeeps(s: Sys, actions: seq<Action>)
    requires Inv(s) && Play(s, actions).Some? && Orderly(s, actions)
    ensures Inv(Play(s, actions).value)
    decreases |actions|
  {
    if actions != [] {
      ActKeeps(s, actions[0]);
      PlayKeeps(Act(s, actions[0]).value, actions[1..]);
    }
  }

  /**
   * As long as every START row is written in the clear and no lookup fails, a missing input means that every
   * job of the key has ended, and no job is ever reported as having lost its input, whatever stale lists the
   * controllers work from and whichever END rows fail to be written.
   */
  lemma MissingInputMeansEnded(actions: seq<Action>)
    requires Play(INIT, actions).Some? && Orderly(INIT, actions)
    ensures var s := Play(INIT, actions).value;
            && (s.input.None? ==> AllEnded(s.rows))
            && EndRow(true) !in s.rows
  {
    PlayKeeps(INIT, actions);
  }

  // ---------- and only in the clear ----------

  lemma {:induction false} PlayStates(actions: seq<Action>, states: seq<Sys>)
    requires |states| == |actions| + 1
    requires forall k :: 0 <= k < |actions| ==> Act(states[k], actions[k]) == Some(states[k + 1])
    ensures Play(states[0], actions) == Some(states[|actions|])
    decreases |actions|
  {
    if actions != [] {
      assert Act(states[0], actions[0]) == Some(states[1]);
      PlayStates(actions[1..], states[1..]);
    }
  }

  /** A fresh controller reports the newest job as having lost its input. */
  lemma OrphanIsReported(s: Sys, c: Pid) returns (actions: seq<Action>)
    requires c !in s.procs && s.input.None? && |s.rows| > 0 && s.rows[|s.rows| - 1].StartRow?
    ensures Play(s, actions).Some? && Play(s, actions).value.rows == s.rows + [EndRow(true)]
  {
    var job := |s.rows| - 1;
    assert !EndedAfter(s.rows, job);
    var s1 := Move(s, c, Picked(job));
    var s2 := Move(s1, c, NoInput(job));
    var s3 := Move(s2, c, Ending(job, true));
    var s4 := Move(s3.(rows := s.rows + [EndRow(true)]), c, Deleting(job));
    actions := [Pick(c, job), Load(c), LookForEnd(c, false), WriteEnd(c, Yes)];
    assert s3.procs[c] == Ending(job, true);
    PlayStates(actions, [s, s1, s2, s3, s4]);
  }

  lemma {:induction false} PlayJoin(s: Sys, a: seq<Action>, b: seq<Action>)
    requires Play(s, a).Some?
    ensures Play(s, a + b) == Play(Play(s, a).value, b)
    decreases |a|
  {
    if a == [] {
      assert a + b == b;
    } else {
      assert (a + b)[0] == a[0] && (a + b)[1..] == a[1..] + b;
      PlayJoin(Act(s, a[0]).value, a[1..], b);
    }
  }

  /**
   * A START row written otherwise can always lose its input: one delete that was already on its way, if it has
   * not happened yet, and the next controller reports as lost a job that never ran.
   */
  lemma UnclearStartCanBeLost(s: Sys, p: Pid, c: Pid) returns (actions: seq<Action>)
    requires p in s.procs && s.procs[p].Registering? && !Clear(s, p) && c !in s.procs
    ensures Play(s, [WriteStart(p)] + actions).Some?
    ensures Play(s, [WriteStart(p)] + actions).value.rows == s.rows + [StartRow, EndRow(true)]
  {
    var started := Act(s, WriteStart(p)).value;
    var first: seq<Action> := [];
    var gone := started;
    if s.input.Some? {
      var q :| q in s.procs && q != p && (s.procs[q].Deleting? || s.procs[q].Registering?);
      var a := if s.procs[q].Deleting? then DeleteInput(q) else UndoSave(q);
      gone := Act(started, a).value;
      first := [a];
      PlayStates(first, [started, gone]);
    }
    var rest := OrphanIsReported(gone, c);
    PlayJoin(started, first, rest);
    actions := first + rest;
    assert ([WriteStart(p)] + actions)[1..] == actions;
    assert s.rows + [StartRow] + [EndRow(true)] == s.rows + [StartRow, EndRow(true)];
  }

  const REGISTER: seq<Action> := [SaveInput(0), WriteStart(0)]
  const BOTH_FINISH: seq<Action> := [WriteEnd(1, Yes), WriteEnd(2, Yes), DeleteInput(1), SaveInput(0)]

  function RunsAs(p: Pid): seq<Action> {
    [Pick(p, 0), Load(p), ReadMark(p), WriteMark(p), FinishWork(p)]
  }

  /**
   * It does happen: two controllers finish the same job, the second having lost its lease to the first. One
   * deletes the input, the key is registered again, and the other's delete is still to come.
   */
  lemma TwoFinishersMakeItUnclear() returns (actions: seq<Action>)
    ensures Play(INIT, actions).Some?
    ensures var s := Play(INIT, actions).value; 0 in s.procs && s.procs[0].Registering? && !Clear(s, 0)
  {
    var s0 := Sys(Some(Queued), [StartRow], map[]);
    var s1 := Sys(Some(Running), [StartRow], map[1 := Ending(0, false)]);
    var s2 := Sys(Some(Running), [StartRow], map[1 := Ending(0, false), 2 := Ending(0, false)]);
    RegisterFirst(s0);
    Runs(s0, 1);
    assert Move(s0, 1, Ending(0, false)).(input := Some(Running)) == s1;
    Runs(s1, 2);
    assert Move(s1, 2, Ending(0, false)).(input := Some(Running)) == s2;
    BothFinish(s2);
    PlayJoin(INIT, REGISTER, RunsAs(1));
    PlayJoin(INIT, REGISTER + RunsAs(1), RunsAs(2));
    PlayJoin(INIT, REGISTER + RunsAs(1) + RunsAs(2), BOTH_FINISH);
    actions := REGISTER + RunsAs(1) + RunsAs(2) + BOTH_FINISH;
  }

  lemma RegisterFirst(s0: Sys)
    requires s0 == Sys(Some(Queued), [StartRow], map[])
    ensures Play(INIT, REGISTER) == Some(s0)
  {
    var s := Move(INIT, 0, Registering).(input := Some(Queued));
    assert s.procs - {0} == map[];
    assert INIT.rows + [StartRow] == [StartRow];
    PlayStates(REGISTER, [INIT, s, s0]);
  }

  lemma BothFinish(s: Sys)
    requires s.procs == map[1 := Ending(0, false), 2 := Ending(0, false)]
    ensures Play(s, BOTH_FINISH).Some?
    ensures var last := Play(s, BOTH_FINISH).value; 0 in last.procs && last.procs[0].Registering? && !Clear(last, 0)
  {
    var s1 := Move(s.(rows := s.rows + [EndRow(false)]), 1, Deleting(0));
    var s2 := Move(s1.(rows := s1.rows + [EndRow(false)]), 2, Deleting(0));
    var s3 := Leave(s2, 1).(input := None);
    var s4 := Move(s3, 0, Registering).(input := Some(Queued));
    PlayStates(BOTH_FINISH, [s, s1, s2, s3, s4]);
    assert s4.procs[2] == Deleting(0);
  }

  /** A controller works through job 0 up to its result. */
  lemma Runs(s: Sys, p: Pid)
    requires p !in s.procs && s.input.Some? && !s.input.value.Done? && s.rows == [StartRow]
    ensures Play(s, RunsAs(p)) == Some(Move(s, p, Ending(0, false)).(input := Some(Running)))
  {
    var s1 := Move(s, p, Picked(0));
    var s2 := Move(s1, p, Reading(0));
    var s3 := Move(s2, p, Marking(0));
    var s4 := Move(s3, p, Working(0)).(input := Some(Running));
    var s5 := Move(s4, p, Ending(0, false));
    assert s5 == Move(s, p, Ending(0, false)).(input := Some(Running));
    PlayStates(RunsAs(p), [s, s1, s2, s3, s4, s5]);
  }

  // ---------- a parked job ----------

  /** The process is not at work on the job and will not report it missing. */
  ghost predicate AtRest(s: Sys, q: Pid) {
    q in s.procs ==> match s.procs[q]
                     case Picked(_) => true
                     case Ending(_, missing) => !missing
                     case Parking(_) => true
                     case Deleting(_) => true
                     case _ => false
  }

  lemma {:induction false} StaysAtRest(s: Sys, q: Pid, actions: seq<Action>)
    requires s.input == Some(Done) && AtRest(s, q) && Play(s, actions).Some?
    requires forall a :: a in actions ==> !a.DeleteInput? && !a.UndoSave? && !a.WriteMark?
    ensures Play(s, actions).value.input == Some(Done) && AtRest(Play(s, actions).value, q)
    decreases |actions|
  {
    if actions != [] {
      assert actions[0] in actions && forall a :: a in actions[1..] ==> a in actions;
      StaysAtRest(Act(s, actions[0]).value, q, actions[1..]);
    }
  }

  /**
   * Once a finished job whose END row may be missing is parked, a controller that picks it up later only writes the
   * row again: it neither runs the job a second time nor reports its input missing, unless the input is deleted or
   * one that had read it before marks it as running.
   */
  lemma ParkedIsNotRunAgain(s: Sys, p: Pid, q: Pid, actions: seq<Action>)
    requires p in s.procs && s.procs[p].Parking? && (q == p || q !in s.procs)
    requires Play(Act(s, Park(p)).value, actions).Some?
    requires forall a :: a in actions ==> !a.DeleteInput? && !a.UndoSave? && !a.WriteMark?
    ensures AtRest(Play(Act(s, Park(p)).value, actions).value, q)
  {
    StaysAtRest(Act(s, Park(p)).value, q, actions);
  }

  // ---------- when an input is reported missing ----------

  /**
   * A controller that found no input drops the job exactly when it can see that the job has ended; without an END row
   * behind it, or when the journal cannot be asked, it goes on to report the input as missing.
   */
  lemma ReportedMissingExactly(s: Sys, p: Pid, job: nat, fails: bool, written: Written)
    requires p in s.procs && s.procs[p] == NoInput(job)
    ensures var looked := Act(s, LookForEnd(p, fails));
            && looked.Some? && looked.value.rows == s.rows && looked.value.input == s.input
            && (p !in looked.value.procs <==> !fails && exists e :: job < e < |s.rows| && s.rows[e].EndRow?)
            && (p in looked.value.procs ==>
                  var reported := Act(looked.value, WriteEnd(p, written));
                  && reported.Some?
                  && reported.value.rows == if written.No? then s.rows else s.rows + [EndRow(true)])
  {
    assert EndedAfter(s.rows, job) <==> exists e :: job < e < |s.rows| && s.rows[e].EndRow?;
  }
}
