/**
 * The life of one job over any number of controllers, one at a time: each resumes from the stored steps, makes
 * moves, and may die between any two of them.
 */
module History {
  import opened Prelude
  import opened Plans
  import opened Engine
  import opened Runner
  import opened RunnerLaws

  /**
   * `stored` is the lease row's list; `run` the controller at work, if any; `log` every completion so far;
   * `intact` the steps whose effect is in place; `ended` that an END row, or a parked result, prevents a resume.
   */
  datatype Job = Job(stored: Plan, run: Option<RunState>, log: Plan, intact: set<StepName>, ended: bool)

  const FRESH: Job := Job([], None, [], {}, false)

  /**
   * What happens to a job. `undone` is what a failing step, or the compensation at the end of a failed job,
   * takes away of earlier steps' effects. `Close` is the end of a job: `recorded` says whether its END row was
   * written or at least its result parked, `released` whether its lease row is gone; both attempts may fail
   * without anybody being told.
   */
  datatype Action =
    | Resume
    | Do(move: Move, undone: set<StepName>)
    | Compensate(undone: set<StepName>)
    | Close(recorded: bool, released: bool)
    | Die

  function Elements(p: Plan): set<StepName> {
    set s | s in p
  }

  /** The steps a failure that goes back to `to` may undo. */
  function UndoneBy(plan: Plan, to: StepName): set<StepName> {
    if to in plan then Elements(plan[IndexOf(plan, to)..]) else {}
  }

  predicate Fails(m: Move) {
    m.GoBack? || m.GiveUp? || m == Stop(FailedEnd)
  }

  /**
   * A step with a restart point undoes earlier steps when it fails, whether the engine then goes back, has no
   * rewind left, or ends the job because trying again is pointless.
   */
  function MayUndo(plan: Plan, r: RunState, m: Move): set<StepName> {
    if Fails(m) && r.phase.Walking? && r.i < |plan| && !CountsAsDone(r.done, plan[r.i]) && RestartPoint(plan[r.i]).Some?
    then UndoneBy(plan, RestartPoint(plan[r.i]).value)
    else {}
  }

  /** The account and its principal are removed again when an opening fails after both had been made. */
  const COMPENSATED: set<StepName> := {CreateAccount, CreateKrb5Principal, AwaitAdReplication, SyncAdGroups}

  predicate Compensates(r: RunState) {
    (r.phase == Over(FailedEnd) || r.phase == Over(Interrupted)) && CreateKrb5Principal in r.done
  }

  function ActMove(plan: Plan, stepMax: int, j: Job, m: Move, undone: set<StepName>): Option<Job> {
    if j.run.None? || !Declared(plan, j.run.value, m) || Apply(plan, stepMax, j.run.value, m).None? then None
    else if !(undone <= MayUndo(plan, j.run.value, m)) then None
    else
      var next := j.(run := Apply(plan, stepMax, j.run.value, m), intact := j.intact - undone);
      match m
      case Save => Some(next.(stored := next.run.value.done))
      case Complete(step) => Some(next.(log := j.log + [step], intact := j.intact + {step}))
      case _ => Some(next)
  }

  function Act(plan: Plan, stepMax: int, j: Job, a: Action): Option<Job> {
    match a
    case Resume => if j.run.Some? || j.ended then None else Some(j.(run := Some(Start(j.stored))))
    case Do(m, undone) => ActMove(plan, stepMax, j, m, undone)
    case Compensate(undone) =>
      if j.run.None? || !Compensates(j.run.value) || !(undone <= COMPENSATED) then None
      else Some(j.(intact := j.intact - undone))
    case Close(recorded, released) =>
      if j.run.None? || !j.run.value.phase.Over? || j.run.value.phase.end.LeaseGone? then None
      else Some(j.(run := None, stored := if released then [] else j.stored, ended := recorded))
    case Die => if j.run.None? then None else Some(j.(run := None))
  }

  function Play(plan: Plan, stepMax: int, j: Job, actions: seq<Action>): Option<Job>
    decreases |actions|
  {
    if actions == [] then Some(j)
    else
      match Act(plan, stepMax, j, actions[0])
      case None => None
      case Some(next) => Play(plan, stepMax, next, actions[1..])
  }

  // ---------- last completions ----------

  /** The position of the last completion of `s`, or -1. */
  function LastAt(log: Plan, s: StepName): (k: int)
    ensures -1 <= k < |log|
    ensures 0 <= k ==> log[k] == s
  {
    if log == [] then -1
    else if log[|log| - 1] == s then |log| - 1
    else LastAt(log[..|log| - 1], s)
  }

  ghost predicate Increasing(log: Plan, listed: Plan) {
    && (forall a :: 0 <= a < |listed| ==> 0 <= LastAt(log, listed[a]))
    && (forall a, b :: 0 <= a < b < |listed| ==> LastAt(log, listed[a]) < LastAt(log, listed[b]))
  }

  ghost predicate DeferredFirst(plan: Plan, log: Plan, listed: Plan) {
    forall x :: x in plan && Partner(x).Some? && Partner(x).value in listed ==>
      0 <= LastAt(log, x) < LastAt(log, Partner(x).value)
  }

  /** The listed steps were last completed in list order, and each deferred step before its listed partner. */
  ghost predicate InOrder(plan: Plan, log: Plan, listed: Plan) {
    Increasing(log, listed) && DeferredFirst(plan, log, listed)
  }

  /** Deferred steps already walked past have been completed unless their partner is on record. */
  ghost predicate DeferredRan(plan: Plan, log: Plan, r: RunState) {
    forall d :: 0 <= d < r.i && d < |plan| && Partner(plan[d]).Some? && Partner(plan[d]).value !in r.done ==>
      0 <= LastAt(log, plan[d])
  }

  ghost predicate Consistent(plan: Plan, j: Job) {
    && IsPrefix(plan, j.stored)
    && InOrder(plan, j.log, j.stored)
    && (j.ended ==> j.run.None?)
    && (j.run.Some? ==>
          var r := j.run.value;
          && Sound(plan, r)
          && (r.phase.Walking? ==> j.stored == r.done)
          && (!r.phase.Over? ==> DeferredRan(plan, j.log, r))
          && InOrder(plan, j.log, r.done)
          && (r.phase == Over(Success(false)) ==> r.done == Recordables(plan)))
  }

  lemma OrderWithout(plan: Plan, log: Plan, done: Plan, kept: Plan)
    requires InOrder(plan, log, done) && kept <= done
    ensures InOrder(plan, log, kept)
  {
  }

  /** A completion outside the list, and not of a deferred step whose partner is listed, changes nothing in it. */
  lemma OrderAfterOther(plan: Plan, log: Plan, listed: Plan, step: StepName)
    requires InOrder(plan, log, listed) && step !in listed
    requires Partner(step).Some? ==> Partner(step).value !in listed
    ensures InOrder(plan, log + [step], listed)
  {
  }

  lemma IncreasingAfterNext(log: Plan, done: Plan, step: StepName)
    requires Increasing(log, done) && step !in done
    ensures Increasing(log + [step], done + [step])
  {
  }

  lemma OrderAfterNext(plan: Plan, log: Plan, done: Plan, step: StepName)
    requires InOrder(plan, log, done) && step !in done && Recordable(step)
    requires forall x :: x in plan && Partner(x) == Some(step) ==> 0 <= LastAt(log, x)
    ensures InOrder(plan, log + [step], done + [step])
  {
    IncreasingAfterNext(log, done, step);
    forall x | x in plan && Partner(x).Some? && Partner(x).value in done + [step]
      ensures 0 <= LastAt(log + [step], x) < LastAt(log + [step], Partner(x).value)
    {
      DeferredAfterNext(plan, log, done, step, x);
    }
  }

  lemma DeferredAfterNext(plan: Plan, log: Plan, done: Plan, step: StepName, x: StepName)
    requires InOrder(plan, log, done) && step !in done && Recordable(step)
    requires x in plan && Partner(x).Some? && Partner(x).value in done + [step]
    requires Partner(x) == Some(step) ==> 0 <= LastAt(log, x)
    ensures 0 <= LastAt(log + [step], x) < LastAt(log + [step], Partner(x).value)
  {
  }

  // ---------- every action keeps the job consistent ----------

  /** The deferred steps of the step at hand have been walked past. */
  lemma DeferredBehind(plan: Plan, log: Plan, r: RunState, x: StepName)
    requires WellFormed(plan) && r.i < |plan| && DeferredRan(plan, log, r)
    requires x in plan && Partner(x) == Some(plan[r.i]) && plan[r.i] !in r.done
    ensures 0 <= LastAt(log, x)
  {
  }

  lemma DeferredRanAfter(plan: Plan, log: Plan, r: RunState, r': RunState)
    requires r.i < |plan| && DeferredRan(plan, log, r) && r'.i == r.i + 1
    requires r'.done == if Recordable(plan[r.i]) then r.done + [plan[r.i]] else r.done
    ensures DeferredRan(plan, log + [plan[r.i]], r')
  {
  }

  lemma StoredStaysInOrder(plan: Plan, log: Plan, stored: Plan, step: StepName)
    requires InOrder(plan, log, stored) && IsPrefix(plan, stored) && !CountsAsDone(stored, step)
    ensures InOrder(plan, log + [step], stored)
  {
    RecordablesMembers(plan, step);
    assert step in stored ==> step in Recordables(plan);
    OrderAfterOther(plan, log, stored, step);
  }

  lemma DoneStaysInOrder(plan: Plan, log: Plan, r: RunState)
    requires WellFormed(plan) && r.i < |plan| && InOrder(plan, log, r.done) && DeferredRan(plan, log, r)
    requires Recordable(plan[r.i]) && plan[r.i] !in r.done
    ensures InOrder(plan, log + [plan[r.i]], r.done + [plan[r.i]])
  {
    forall x | x in plan && Partner(x) == Some(plan[r.i]) ensures 0 <= LastAt(log, x) {
      DeferredBehind(plan, log, r, x);
    }
    OrderAfterNext(plan, log, r.done, plan[r.i]);
  }

  lemma CompleteKeeps(plan: Plan, stepMax: int, j: Job, step: StepName)
    requires WellFormed(plan) && Consistent(plan, j)
    requires Act(plan, stepMax, j, Do(Complete(step), {})).Some?
    ensures Consistent(plan, Act(plan, stepMax, j, Do(Complete(step), {})).value)
  {
    MovesKeepSound(plan, stepMax, j.run.value, Complete(step));
    StoredStaysInOrder(plan, j.log, j.stored, step);
    if Recordable(step) { DoneStaysInOrder(plan, j.log, j.run.value); }
    DeferredRanAfter(plan, j.log, j.run.value, Act(plan, stepMax, j, Do(Complete(step), {})).value.run.value);
  }

  lemma GoBackKeeps(plan: Plan, stepMax: int, j: Job, to: StepName, undone: set<StepName>)
    requires WellFormed(plan) && Consistent(plan, j)
    requires Act(plan, stepMax, j, Do(GoBack(to), undone)).Some?
    ensures Consistent(plan, Act(plan, stepMax, j, Do(GoBack(to), undone)).value)
  {
    var r := j.run.value;
    var j' := Act(plan, stepMax, j, Do(GoBack(to), undone)).value;
    var r' := j'.run.value;
    var k := IndexOf(plan, to);
    MovesKeepSound(plan, stepMax, r, GoBack(to));
    assert k <= r.i;
    assert plan[..k] == plan[..r.i][..k];
    RecordablesSplit(plan[..r.i], k);
    RunnerLaws.GoBackKeeps(plan, r.done, k);
    assert r'.done <= r.done;
    OrderWithout(plan, j.log, r.done, r'.done);
    forall d | 0 <= d < r'.i && Partner(plan[d]).Some? && Partner(plan[d]).value !in r'.done
      ensures 0 <= LastAt(j.log, plan[d])
    {
      assert Partner(plan[d]).value in r.done ==> 0 <= LastAt(j.log, plan[d]);
    }
  }

  lemma StopKeeps(plan: Plan, stepMax: int, j: Job, end: End, undone: set<StepName>)
    requires WellFormed(plan) && Consistent(plan, j)
    requires Act(plan, stepMax, j, Do(Stop(end), undone)).Some?
    ensures Consistent(plan, Act(plan, stepMax, j, Do(Stop(end), undone)).value)
  {
    MovesKeepSound(plan, stepMax, j.run.value, Stop(end));
    if end == Success(false) {
      SuccessIsComplete(plan, stepMax, j.run.value);
    }
  }

  lemma DeferredRanPast(plan: Plan, log: Plan, r: RunState)
    requires r.i < |plan| && DeferredRan(plan, log, r) && CountsAsDone(r.done, plan[r.i])
    ensures DeferredRan(plan, log, r.(i := r.i + 1))
  {
  }

  lemma PassKeeps(plan: Plan, stepMax: int, j: Job)
    requires WellFormed(plan) && Consistent(plan, j) && Act(plan, stepMax, j, Do(Pass, {})).Some?
    ensures Consistent(plan, Act(plan, stepMax, j, Do(Pass, {})).value)
  {
    var r := j.run.value;
    MovesKeepSound(plan, stepMax, r, Pass);
    DeferredRanPast(plan, j.log, r);
    assert Act(plan, stepMax, j, Do(Pass, {})).value.run == Some(r.(i := r.i + 1));
  }

  lemma SaveOrGiveUpKeeps(plan: Plan, stepMax: int, j: Job, m: Move, undone: set<StepName>)
    requires WellFormed(plan) && Consistent(plan, j) && Act(plan, stepMax, j, Do(m, undone)).Some?
    requires m.Save? || m.GiveUp?
    ensures Consistent(plan, Act(plan, stepMax, j, Do(m, undone)).value)
  {
    MovesKeepSound(plan, stepMax, j.run.value, m);
  }

  lemma DoKeeps(plan: Plan, stepMax: int, j: Job, m: Move, undone: set<StepName>)
    requires WellFormed(plan) && Consistent(plan, j) && Act(plan, stepMax, j, Do(m, undone)).Some?
    ensures Consistent(plan, Act(plan, stepMax, j, Do(m, undone)).value)
  {
    match m {
      case Complete(step) =>
        assert undone == {};
        CompleteKeeps(plan, stepMax, j, step);
      case Pass =>
        assert undone == {};
        PassKeeps(plan, stepMax, j);
      case GoBack(to) => GoBackKeeps(plan, stepMax, j, to, undone);
      case Stop(end) => StopKeeps(plan, stepMax, j, end, undone);
      case _ => SaveOrGiveUpKeeps(plan, stepMax, j, m, undone);
    }
  }

  lemma ActionsKeep(plan: Plan, stepMax: int, j: Job, a: Action)
    requires WellFormed(plan) && Consistent(plan, j) && Act(plan, stepMax, j, a).Some?
    ensures Consistent(plan, Act(plan, stepMax, j, a).value)
  {
    match a {
      case Resume => StartIsSound(plan, j.stored);
      case Do(m, undone) => DoKeeps(plan, stepMax, j, m, undone);
      case _ =>
    }
  }

  lemma {:induction false} HistoriesKeep(plan: Plan, stepMax: int, j: Job, actions: seq<Action>)
    requires WellFormed(plan) && Consistent(plan, j) && Play(plan, stepMax, j, actions).Some?
    ensures Consistent(plan, Play(plan, stepMax, j, actions).value)
    decreases |actions|
  {
    if actions != [] {
      ActionsKeep(plan, stepMax, j, actions[0]);
      HistoriesKeep(plan, stepMax, Act(plan, stepMax, j, actions[0]).value, actions[1..]);
    }
  }

  ghost predicate Ended(j: Job) {
    j.run.Some? && j.run.value.phase == Over(Success(false))
  }

  /**
   * Over any number of crashes, resumes and rewinds: a success that was not a skip means every recordable step
   * was completed, the last completions follow plan order, and each deferred step's last completion precedes
   * its partner's.
   */
  lemma SuccessMeansAllInOrder(plan: Plan, stepMax: int, actions: seq<Action>)
    requires WellFormed(plan)
    requires Play(plan, stepMax, FRESH, actions).Some? && Ended(Play(plan, stepMax, FRESH, actions).value)
    ensures InOrder(plan, Play(plan, stepMax, FRESH, actions).value.log, Recordables(plan))
  {
    HistoriesKeep(plan, stepMax, FRESH, actions);
  }

  /** A step runs only when every recordable step before it is on record as completed. */
  lemma RunsOnlyAfter(plan: Plan, stepMax: int, actions: seq<Action>, step: StepName, before: nat)
    requires WellFormed(plan) && Play(plan, stepMax, FRESH, actions).Some?
    requires var j := Play(plan, stepMax, FRESH, actions).value;
             Act(plan, stepMax, j, Do(Complete(step), {})).Some? && before < j.run.value.i && Recordable(plan[before])
    ensures var j := Play(plan, stepMax, FRESH, actions).value;
            plan[before] in j.stored && 0 <= LastAt(j.log, plan[before])
  {
    var j := Play(plan, stepMax, FRESH, actions).value;
    HistoriesKeep(plan, stepMax, FRESH, actions);
    var r := j.run.value;
    RecordablesMembers(plan[..r.i], plan[before]);
    assert plan[before] == plan[..r.i][before];
    var a :| 0 <= a < |Recordables(plan[..r.i])| && Recordables(plan[..r.i])[a] == plan[before];
    assert r.done[a] == plan[before];
  }

  ghost predicate OnlyAtTheEnd(plan: Plan, last: StepName) {
    forall i :: 0 <= i < |plan| && plan[i] == last ==> i == |plan| - 1
  }

  lemma LastRunsAfter(plan: Plan, stepMax: int, actions: seq<Action>, last: StepName, before: nat)
    requires WellFormed(plan) && before < |plan| - 1 && Recordable(plan[before])
    requires OnlyAtTheEnd(plan, last)
    requires Play(plan, stepMax, FRESH, actions).Some?
    requires Act(plan, stepMax, Play(plan, stepMax, FRESH, actions).value, Do(Complete(last), {})).Some?
    ensures var j := Play(plan, stepMax, FRESH, actions).value;
            plan[before] in j.stored && 0 <= LastAt(j.log, plan[before])
  {
    RunsOnlyAfter(plan, stepMax, actions, last, before);
  }

  /**
   * A migration cleans up the old Pod only after the new Pod's Services and, in full mode, all five access
   * probes: whenever that step runs, each of them has been completed and recorded before.
   */
  lemma OldPodGoesLast(mode: Mode, stepMax: int, actions: seq<Action>, s: StepName)
    requires var plan := JobSteps(MigrateJob, mode);
             && Play(plan, stepMax, FRESH, actions).Some?
             && Act(plan, stepMax, Play(plan, stepMax, FRESH, actions).value, Do(Complete(MigrateCleanupOld), {})).Some?
    requires s == CreateServices || s == CreatePodK8s || s == WaitReady || (mode.Full? && s in VERIFY_ACCESS_STEPS)
    ensures var j := Play(JobSteps(MigrateJob, mode), stepMax, FRESH, actions).value;
            s in j.stored && 0 <= LastAt(j.log, s)
  {
    var plan := JobSteps(MigrateJob, mode);
    PlansAreWellFormed(MigrateJob, mode);
    var before := CleanupFollows(mode, s);
    LastRunsAfter(plan, stepMax, actions, MigrateCleanupOld, before);
  }

  /** Where the step stands in the plan; the cleanup stands last. */
  lemma CleanupFollows(mode: Mode, s: StepName) returns (before: nat)
    requires s == CreateServices || s == CreatePodK8s || s == WaitReady || (mode.Full? && s in VERIFY_ACCESS_STEPS)
    ensures var plan := JobSteps(MigrateJob, mode);
            && before < |plan| - 1 && plan[before] == s && Recordable(s)
            && OnlyAtTheEnd(plan, MigrateCleanupOld)
  {
    MigrateDistinct(mode);
    var plan := JobSteps(MigrateJob, mode);
    var head := MIGRATE_HEAD + Probes(mode);
    assert MIGRATE_HEAD[6] == CreatePodK8s && MIGRATE_HEAD[7] == WaitReady && MIGRATE_HEAD[8] == CreateServices;
    assert VERIFY_ACCESS_STEPS == [VerifyUid, VerifyKrb5, VerifyHomeIo, VerifyGpu, VerifyEndpoint];
    before := match s
      case CreatePodK8s => 6 case WaitReady => 7 case CreateServices => 8
      case VerifyUid => 9 case VerifyKrb5 => 10 case VerifyHomeIo => 11 case VerifyGpu => 12
      case VerifyEndpoint => 13;
    assert plan == head + [MigrateCleanupOld];
    assert before >= 9 ==> head[before] == Probes(mode)[before - 9];
    assert before < 9 ==> head[before] == MIGRATE_HEAD[before];
  }

  // ---------- effects that are in place, and the windows in which they get lost ----------

  /** The job before every action and after the last. */
  function States(plan: Plan, stepMax: int, j: Job, actions: seq<Action>): (states: seq<Job>)
    requires Play(plan, stepMax, j, actions).Some?
    ensures |states| == |actions| + 1 && states[0] == j
    ensures states[|actions|] == Play(plan, stepMax, j, actions).value
    ensures forall k :: 0 <= k < |actions| ==> Act(plan, stepMax, states[k], actions[k]) == Some(states[k + 1])
    decreases |actions|
  {
    if actions == [] then [j]
    else [j] + States(plan, stepMax, Act(plan, stepMax, j, actions[0]).value, actions[1..])
  }

  predicate Undoes(a: Action, s: StepName) {
    (a.Do? || a.Compensate?) && s in a.undone
  }

  predicate Completes(a: Action, s: StepName) {
    a.Do? && a.move == Complete(s)
  }

  /** The stored list is written or given up, or the job is on record as ended. */
  predicate Records(a: Action) {
    (a.Do? && a.move.Save?) || (a.Close? && (a.recorded || a.released))
  }

  /** The controller is gone and nothing says so: it has died, or has closed the job without getting anything written. */
  predicate Leaves(a: Action) {
    a.Die? || a == Close(false, false)
  }

  ghost predicate NoneRecords(actions: seq<Action>, from: int, to: int) {
    forall k :: from <= k < to && 0 <= k < |actions| ==> !Records(actions[k])
  }

  ghost predicate NoneCompletes(actions: seq<Action>, s: StepName, from: int, to: int) {
    forall k :: from <= k < to && 0 <= k < |actions| ==> !Completes(actions[k], s)
  }

  /** `s` is undone at `u` while it is stored as finished, and not completed again before `k`. */
  ghost predicate UndoneAt(states: seq<Job>, actions: seq<Action>, s: StepName, u: nat, k: nat)
    requires |states| == |actions| + 1 && k <= |actions|
  {
    u < k && Undoes(actions[u], s) && s in states[u].stored && NoneCompletes(actions, s, u + 1, k)
  }

  /** ... and at `d` a controller leaves before the record has caught up with it. */
  ghost predicate LostAt(states: seq<Job>, actions: seq<Action>, s: StepName, u: nat, d: nat, k: nat)
    requires |states| == |actions| + 1 && k <= |actions|
  {
    u < d < k && UndoneAt(states, actions, s, u, k) && Leaves(actions[d]) && NoneRecords(actions, u + 1, d)
  }

  /** A controller has left in the window before action `k`. */
  ghost predicate Lost(states: seq<Job>, actions: seq<Action>, s: StepName, k: nat)
    requires |states| == |actions| + 1 && k <= |actions|
  {
    exists u: nat, d: nat :: LostAt(states, actions, s, u, d, k)
  }

  /** The window is open before action `k`. */
  ghost predicate Open(states: seq<Job>, actions: seq<Action>, s: StepName, k: nat)
    requires |states| == |actions| + 1 && k <= |actions|
  {
    exists u: nat :: UndoneAt(states, actions, s, u, k) && NoneRecords(actions, u + 1, k)
  }

  lemma StaysLost(states: seq<Job>, actions: seq<Action>, s: StepName, k: nat)
    requires |states| == |actions| + 1 && k < |actions|
    requires Lost(states, actions, s, k) && !Completes(actions[k], s)
    ensures Lost(states, actions, s, k + 1)
  {
    var u: nat, d: nat :| LostAt(states, actions, s, u, d, k);
    assert LostAt(states, actions, s, u, d, k + 1);
  }

  lemma StaysOpen(states: seq<Job>, actions: seq<Action>, s: StepName, k: nat)
    requires |states| == |actions| + 1 && k < |actions|
    requires Open(states, actions, s, k) && !Completes(actions[k], s) && !Records(actions[k])
    ensures Open(states, actions, s, k + 1)
    ensures Leaves(actions[k]) ==> Lost(states, actions, s, k + 1)
  {
    var u: nat :| UndoneAt(states, actions, s, u, k) && NoneRecords(actions, u + 1, k);
    assert UndoneAt(states, actions, s, u, k + 1) && NoneRecords(actions, u + 1, k + 1);
    if Leaves(actions[k]) { assert LostAt(states, actions, s, u, k, k + 1); }
  }

  lemma Opens(states: seq<Job>, actions: seq<Action>, s: StepName, k: nat)
    requires |states| == |actions| + 1 && k < |actions|
    requires Undoes(actions[k], s) && s in states[k].stored
    ensures Open(states, actions, s, k + 1)
  {
    assert UndoneAt(states, actions, s, k, k + 1) && NoneRecords(actions, k + 1, k + 1);
  }

  /** The finished steps of a controller that may still end well. */
  predicate Trusts(j: Job, s: StepName) {
    j.run.Some? && (!j.run.value.phase.Over? || j.run.value.phase.end.Success?) && s in j.run.value.done
  }

  /** How a step can be missing: for good, or while the window is still open. */
  ghost predicate Explained(states: seq<Job>, actions: seq<Action>, s: StepName, k: nat)
    requires |states| == |actions| + 1 && k <= |actions|
  {
    var j := states[k];
    s !in j.intact && !j.ended ==>
      && (s in j.stored ==> Lost(states, actions, s, k) || Open(states, actions, s, k))
      && (s in j.stored && j.run.None? ==> Lost(states, actions, s, k))
      && (Trusts(j, s) ==> Lost(states, actions, s, k))
  }

  ghost predicate IsRun(plan: Plan, stepMax: int, states: seq<Job>, actions: seq<Action>) {
    && |states| == |actions| + 1 && states[0] == FRESH
    && (forall k :: 0 <= k < |actions| ==> Act(plan, stepMax, states[k], actions[k]) == Some(states[k + 1]))
  }

  /** A rewind no longer trusts what its step has undone. */
  lemma GoBackDrops(plan: Plan, stepMax: int, r: RunState, to: StepName, s: StepName)
    requires Declared(plan, r, GoBack(to)) && Apply(plan, stepMax, r, GoBack(to)).Some?
    requires s in Apply(plan, stepMax, r, GoBack(to)).value.done
    ensures s in r.done && s !in MayUndo(plan, r, GoBack(to))
  {
    WithoutMembers(r.done, plan[IndexOf(plan, to)..], s);
  }

  lemma {:induction false} WithoutMembers(done: Plan, dropped: Plan, s: StepName)
    ensures s in Without(done, dropped) <==> s in done && s !in dropped
  {
    if done != [] {
      WithoutMembers(done[1..], dropped, s);
      assert done == [done[0]] + done[1..];
    }
  }

  /** What one action does to the places where a step can stand as finished, and to its effect. */
  lemma ActTouches(plan: Plan, stepMax: int, j: Job, a: Action, s: StepName)
    requires Consistent(plan, j) && Act(plan, stepMax, j, a).Some?
    ensures var next := Act(plan, stepMax, j, a).value;
            && (s !in next.intact ==> !Completes(a, s) && (s in j.intact ==> Undoes(a, s)))
            && (next.run.None? && !next.ended ==> j.run.None? || Leaves(a) || Records(a))
            && (a.Close? && Records(a) && !next.ended ==> next.stored == [])
            && !j.ended
  {
  }

  lemma ActStores(plan: Plan, stepMax: int, j: Job, a: Action, s: StepName)
    requires Act(plan, stepMax, j, a).Some? && s in Act(plan, stepMax, j, a).value.stored
    requires !Act(plan, stepMax, j, a).value.ended
    ensures if Records(a) then Trusts(j, s) && !Undoes(a, s) else s in j.stored
  {
  }

  lemma MoveTrusts(plan: Plan, stepMax: int, r: RunState, m: Move, s: StepName)
    requires Declared(plan, r, m) && Apply(plan, stepMax, r, m).Some?
    requires var next := Apply(plan, stepMax, r, m).value;
             s in next.done && (next.phase.Over? ==> next.phase.end.Success?)
    ensures m == Complete(s) || (s in r.done && s !in MayUndo(plan, r, m))
  {
    if m.GoBack? { GoBackDrops(plan, stepMax, r, m.to, s); }
  }

  lemma ActTrusts(plan: Plan, stepMax: int, j: Job, a: Action, s: StepName)
    requires Act(plan, stepMax, j, a).Some? && Trusts(Act(plan, stepMax, j, a).value, s)
    ensures if a.Resume? then j.run.None? && s in j.stored
            else Completes(a, s) || (Trusts(j, s) && !Undoes(a, s))
  {
    if a.Do? { MoveTrusts(plan, stepMax, j.run.value, a.move, s); }
  }

  /** What an action leaves alone stays explained; the rest it explains itself. */
  lemma StepExplained(plan: Plan, stepMax: int, states: seq<Job>, actions: seq<Action>, s: StepName, k: nat)
    requires IsRun(plan, stepMax, states, actions) && k < |actions| && Consistent(plan, states[k])
    requires Explained(states, actions, s, k)
    ensures Explained(states, actions, s, k + 1)
  {
    var j, a, next := states[k], actions[k], states[k + 1];
    assert Act(plan, stepMax, j, a) == Some(next);
    if s !in next.intact && !next.ended {
      ActTouches(plan, stepMax, j, a, s);
      if s in next.stored { ActStores(plan, stepMax, j, a, s); }
      if Undoes(a, s) && s in j.stored { Opens(states, actions, s, k); }
      if Lost(states, actions, s, k) { StaysLost(states, actions, s, k); }
      if Open(states, actions, s, k) && !Records(a) { StaysOpen(states, actions, s, k); }
      if Trusts(next, s) { ActTrusts(plan, stepMax, j, a, s); }
    }
  }

  lemma {:induction false} AllExplained(plan: Plan, stepMax: int, states: seq<Job>, actions: seq<Action>, s: StepName, k: nat)
    requires WellFormed(plan) && IsRun(plan, stepMax, states, actions) && k <= |actions|
    ensures Consistent(plan, states[k]) && Explained(states, actions, s, k)
  {
    if k > 0 {
      AllExplained(plan, stepMax, states, actions, s, k - 1);
      ActionsKeep(plan, stepMax, states[k - 1], actions[k - 1]);
      StepExplained(plan, stepMax, states, actions, s, k - 1);
    }
  }

  lemma {:induction false} StaysMissing(plan: Plan, stepMax: int, states: seq<Job>, actions: seq<Action>, s: StepName,
                                        u: nat, k: nat)
    requires IsRun(plan, stepMax, states, actions) && k <= |actions| && UndoneAt(states, actions, s, u, k)
    ensures s !in states[k].intact
  {
    if u + 1 < k {
      assert UndoneAt(states, actions, s, u, k - 1);
      StaysMissing(plan, stepMax, states, actions, s, u, k - 1);
      assert !Completes(actions[k - 1], s);
    }
  }

  /**
   * A success whose step is missing. It happens if and only if a controller left in the window: after a failing
   * step or the final compensation had undone a step stored as finished, it died, or closed the job with END row,
   * parking and release all failing, before the rewind or the end was recorded; and the step was not completed
   * again since.
   */
  lemma MissingExactlyWhenLost(plan: Plan, stepMax: int, actions: seq<Action>, s: StepName)
    requires WellFormed(plan) && s in plan && Recordable(s)
    requires Play(plan, stepMax, FRESH, actions).Some? && Ended(Play(plan, stepMax, FRESH, actions).value)
    ensures var states := States(plan, stepMax, FRESH, actions);
            s !in states[|actions|].intact <==> exists u: nat, d: nat :: LostAt(states, actions, s, u, d, |actions|)
  {
    var states := States(plan, stepMax, FRESH, actions);
    AllExplained(plan, stepMax, states, actions, s, |actions|);
    RecordablesMembers(plan, s);
    if u: nat, d: nat :| LostAt(states, actions, s, u, d, |actions|) {
      StaysMissing(plan, stepMax, states, actions, s, u, |actions|);
    }
  }

  /** Whoever undoes a step gets to record it before a controller leaves. */
  ghost predicate RecordedBeforeLeaving(actions: seq<Action>) {
    forall u, d, s :: 0 <= u < d < |actions| && Undoes(actions[u], s) && Leaves(actions[d]) ==>
      !NoneRecords(actions, u + 1, d)
  }

  /** Then every success finds the effects of all its steps in place, whatever else happened on the way. */
  lemma NothingMissingWhenRecorded(plan: Plan, stepMax: int, actions: seq<Action>, s: StepName)
    requires WellFormed(plan) && s in plan && Recordable(s) && RecordedBeforeLeaving(actions)
    requires Play(plan, stepMax, FRESH, actions).Some? && Ended(Play(plan, stepMax, FRESH, actions).value)
    ensures s in Play(plan, stepMax, FRESH, actions).value.intact
  {
    MissingExactlyWhenLost(plan, stepMax, actions, s);
  }

  lemma {:induction false} PlayJoin(plan: Plan, stepMax: int, j: Job, a: seq<Action>, b: seq<Action>)
    requires Play(plan, stepMax, j, a).Some?
    ensures Play(plan, stepMax, j, a + b) == Play(plan, stepMax, Play(plan, stepMax, j, a).value, b)
    decreases |a|
  {
    if a == [] {
      assert a + b == b;
    } else {
      assert (a + b)[0] == a[0] && (a + b)[1..] == a[1..] + b;
      PlayJoin(plan, stepMax, Act(plan, stepMax, j, a[0]).value, a[1..], b);
    }
  }

  /** The undisturbed rest of a walk: every remaining step passes or completes and is recorded. */
  function Quiet(plan: Plan, r: RunState): seq<Action>
    requires r.i <= |plan|
    decreases |plan| - r.i
  {
    if r.i == |plan| then [Do(Stop(Success(false)), {})]
    else if CountsAsDone(r.done, plan[r.i]) then [Do(Pass, {})] + Quiet(plan, r.(i := r.i + 1))
    else if Recordable(plan[r.i]) then
      [Do(Complete(plan[r.i]), {}), Do(Save, {})] + Quiet(plan, r.(i := r.i + 1, done := r.done + [plan[r.i]]))
    else [Do(Complete(plan[r.i]), {})] + Quiet(plan, r.(i := r.i + 1))
  }

  lemma QuietStep(plan: Plan, stepMax: int, j: Job, m: Move, rest: seq<Action>)
    requires Act(plan, stepMax, j, Do(m, {})).Some?
    ensures Play(plan, stepMax, j, [Do(m, {})] + rest) == Play(plan, stepMax, Act(plan, stepMax, j, Do(m, {})).value, rest)
  {
    assert ([Do(m, {})] + rest)[1..] == rest;
  }

  /** A walking controller that has `s` on its list while the effect of `s` is missing. */
  predicate Misled(j: Job, plan: Plan, s: StepName) {
    && j.run.Some? && j.run.value.phase.Walking? && j.run.value.i <= |plan|
    && s in j.run.value.done && Recordable(s) && s !in j.intact
  }

  lemma CompleteKeepsMisled(plan: Plan, stepMax: int, j: Job, s: StepName)
    requires Misled(j, plan, s) && j.run.value.i < |plan| && !CountsAsDone(j.run.value.done, plan[j.run.value.i])
    ensures var r, step := j.run.value, plan[j.run.value.i];
            var mid := Act(plan, stepMax, j, Do(Complete(step), {}));
            && mid.Some? && s !in mid.value.intact
            && mid.value.run == Some(if Recordable(step) then RunState(r.i + 1, r.done + [step], r.rewinds, Saving)
                                     else r.(i := r.i + 1))
  {
    assert plan[j.run.value.i] != s;
  }

  /** An undisturbed walk ends well and never runs a step that was stored as finished. */
  lemma {:induction false} QuietSucceeds(plan: Plan, stepMax: int, j: Job, s: StepName)
    requires Misled(j, plan, s)
    ensures Play(plan, stepMax, j, Quiet(plan, j.run.value)).Some?
    ensures var last := Play(plan, stepMax, j, Quiet(plan, j.run.value)).value;
            Ended(last) && s !in last.intact
    decreases |plan| - j.run.value.i
  {
    var r := j.run.value;
    if r.i == |plan| {
      QuietStep(plan, stepMax, j, Stop(Success(false)), []);
    } else if CountsAsDone(r.done, plan[r.i]) {
      var next := Act(plan, stepMax, j, Do(Pass, {})).value;
      QuietSucceeds(plan, stepMax, next, s);
      QuietStep(plan, stepMax, j, Pass, Quiet(plan, next.run.value));
    } else if Recordable(plan[r.i]) {
      QuietRecorded(plan, stepMax, j, s);
    } else {
      var step := plan[r.i];
      CompleteKeepsMisled(plan, stepMax, j, s);
      var next := Act(plan, stepMax, j, Do(Complete(step), {})).value;
      QuietSucceeds(plan, stepMax, next, s);
      QuietStep(plan, stepMax, j, Complete(step), Quiet(plan, next.run.value));
    }
  }

  lemma {:induction false} QuietRecorded(plan: Plan, stepMax: int, j: Job, s: StepName)
    requires Misled(j, plan, s) && j.run.value.i < |plan| && !CountsAsDone(j.run.value.done, plan[j.run.value.i])
    requires Recordable(plan[j.run.value.i])
    ensures Play(plan, stepMax, j, Quiet(plan, j.run.value)).Some?
    ensures var last := Play(plan, stepMax, j, Quiet(plan, j.run.value)).value;
            Ended(last) && s !in last.intact
    decreases |plan| - j.run.value.i, 0
  {
    var r, step := j.run.value, plan[j.run.value.i];
    CompleteKeepsMisled(plan, stepMax, j, s);
    var mid := Act(plan, stepMax, j, Do(Complete(step), {})).value;
    var next := Act(plan, stepMax, mid, Do(Save, {})).value;
    assert next.run == Some(RunState(r.i + 1, r.done + [step], r.rewinds, Walking));
    QuietSucceeds(plan, stepMax, next, s);
    var rest := Quiet(plan, next.run.value);
    assert [Do(Complete(step), {}), Do(Save, {})] + rest == [Do(Complete(step), {})] + ([Do(Save, {})] + rest);
    QuietStep(plan, stepMax, mid, Save, rest);
    QuietStep(plan, stepMax, j, Complete(step), [Do(Save, {})] + rest);
  }

  /** The run succeeds although the account it opened is not there. */
  ghost predicate SucceedsWithoutAccount(plan: Plan, stepMax: int, actions: seq<Action>) {
    && Play(plan, stepMax, FRESH, actions).Some?
    && Ended(Play(plan, stepMax, FRESH, actions).value)
    && CreateAccount !in Play(plan, stepMax, FRESH, actions).value.intact
  }

  /** A first controller that has just recorded `done`. */
  predicate Opening(j: Job, done: Plan) {
    j.run == Some(RunState(|done|, done, 0, Walking)) && j.stored == done && !j.ended
  }

  /** The first recordable steps of the plan, each completed and recorded. */
  function Recorded(plan: Plan, n: nat): seq<Action>
    requires n <= |plan|
  {
    if n == 0 then [Resume] else Recorded(plan, n - 1) + [Do(Complete(plan[n - 1]), {}), Do(Save, {})]
  }

  lemma OneMoreRecorded(plan: Plan, stepMax: int, j: Job, n: nat)
    requires n < |plan| && Distinct(plan) && Recordable(plan[n]) && Opening(j, plan[..n])
    ensures var next: seq<Action> := [Do(Complete(plan[n]), {}), Do(Save, {})];
            Play(plan, stepMax, j, next).Some? && Opening(Play(plan, stepMax, j, next).value, plan[..n + 1])
  {
    var next: seq<Action> := [Do(Complete(plan[n]), {}), Do(Save, {})];
    assert plan[..n + 1] == plan[..n] + [plan[n]];
    assert !CountsAsDone(plan[..n], plan[n]);
    assert next[1..] == [Do(Save, {})] && next[1..][1..] == [];
    var mid := Act(plan, stepMax, j, next[0]).value;
    assert mid.run == Some(RunState(n + 1, plan[..n + 1], 0, Saving));
    assert Opening(Act(plan, stepMax, mid, Do(Save, {})).value, plan[..n + 1]);
    assert Play(plan, stepMax, mid, [Do(Save, {})]) == Act(plan, stepMax, mid, Do(Save, {}));
  }

  lemma {:induction false} RecordedPlays(plan: Plan, stepMax: int, n: nat)
    requires n <= |plan| && Distinct(plan)
    requires forall i :: 0 <= i < n ==> Recordable(plan[i])
    ensures Play(plan, stepMax, FRESH, Recorded(plan, n)).Some?
    ensures Opening(Play(plan, stepMax, FRESH, Recorded(plan, n)).value, plan[..n])
  {
    if n == 0 {
      assert Recorded(plan, n) == [Resume] && [Resume][1..] == [];
      assert Play(plan, stepMax, FRESH, [Resume]) == Act(plan, stepMax, FRESH, Resume);
    } else {
      RecordedPlays(plan, stepMax, n - 1);
      var j := Play(plan, stepMax, FRESH, Recorded(plan, n - 1)).value;
      OneMoreRecorded(plan, stepMax, j, n - 1);
      PlayJoin(plan, stepMax, FRESH, Recorded(plan, n - 1), [Do(Complete(plan[n - 1]), {}), Do(Save, {})]);
    }
  }

  lemma {:induction false} NoDeathRecorded(plan: Plan, n: nat)
    requires n <= |plan|
    ensures Die !in Recorded(plan, n)
  {
    if n > 0 { NoDeathRecorded(plan, n - 1); }
  }

  lemma {:induction false} NoDeathQuiet(plan: Plan, r: RunState)
    requires r.i <= |plan|
    ensures Die !in Quiet(plan, r)
    decreases |plan| - r.i
  {
    if r.i == |plan| {
    } else if CountsAsDone(r.done, plan[r.i]) {
      NoDeathQuiet(plan, r.(i := r.i + 1));
    } else if Recordable(plan[r.i]) {
      NoDeathQuiet(plan, r.(i := r.i + 1, done := r.done + [plan[r.i]]));
    } else {
      NoDeathQuiet(plan, r.(i := r.i + 1));
    }
  }

  /** The actions take the account away and leave the stored list as it is, and no controller. */
  ghost predicate AccountGoes(plan: Plan, stepMax: int, j: Job, undo: seq<Action>) {
    && Play(plan, stepMax, j, undo).Some?
    && var gone := Play(plan, stepMax, j, undo).value;
       gone.run.None? && !gone.ended && gone.stored == j.stored && CreateAccount !in gone.intact
  }

  /** The account is undone while it is recorded, the controller leaves, and the next one walks to the end undisturbed. */
  lemma LeavingBeforeRecording(plan: Plan, stepMax: int, n: nat, undo: seq<Action>) returns (actions: seq<Action>)
    requires 0 < n <= |plan| && Distinct(plan) && plan[0] == CreateAccount
    requires forall i :: 0 <= i < n ==> Recordable(plan[i])
    requires forall j :: Opening(j, plan[..n]) ==> AccountGoes(plan, stepMax, j, undo)
    ensures SucceedsWithoutAccount(plan, stepMax, actions)
    ensures Die !in undo ==> Die !in actions
  {
    RecordedPlays(plan, stepMax, n);
    var j := Play(plan, stepMax, FRESH, Recorded(plan, n)).value;
    assert AccountGoes(plan, stepMax, j, undo);
    var gone := Play(plan, stepMax, j, undo).value;
    var again: seq<Action> := [Resume];
    var resumed := gone.(run := Some(Start(gone.stored)));
    assert again[1..] == [];
    assert Play(plan, stepMax, gone, again) == Some(resumed);
    assert plan[..n][0] == CreateAccount;
    QuietSucceeds(plan, stepMax, resumed, CreateAccount);
    var quiet := Quiet(plan, resumed.run.value);
    PlayJoin(plan, stepMax, gone, again, quiet);
    PlayJoin(plan, stepMax, j, undo, again + quiet);
    PlayJoin(plan, stepMax, FRESH, Recorded(plan, n), undo + (again + quiet));
    actions := Recorded(plan, n) + (undo + (again + quiet));
    NoDeathRecorded(plan, n);
    NoDeathQuiet(plan, resumed.run.value);
  }

  /** The plan that opens an account and a first Pod. */
  function OpeningPlan(mode: Mode): (plan: Plan)
    ensures Distinct(plan) && |plan| >= 5 && plan[..5] == ACCOUNT_CREATE_STEPS
  {
    ProvisionDistinct(NewAccount, false, mode);
    JobSteps(ProvisionJob(NewAccount, false), mode)
  }

  lemma OpeningStarts(mode: Mode)
    ensures var plan := OpeningPlan(mode);
            plan[0] == CreateAccount && plan[1] == CreateHome && plan[2] == CreateKrb5Principal && plan[3] == AwaitAdReplication
  {
    assert OpeningPlan(mode)[..5][0] == CreateAccount && OpeningPlan(mode)[..5][1] == CreateHome;
    assert OpeningPlan(mode)[..5][2] == CreateKrb5Principal && OpeningPlan(mode)[..5][3] == AwaitAdReplication;
  }

  /**
   * The window is real. The account step is recorded, the home step fails and takes the account back, and the
   * controller dies before recording that it went back. The next controller skips the account step and,
   * undisturbed, reports success for an account that no longer exists.
   */
  lemma DeathBeforeTheRewind(mode: Mode, stepMax: int) returns (actions: seq<Action>)
    requires stepMax >= 2
    ensures SucceedsWithoutAccount(OpeningPlan(mode), stepMax, actions)
  {
    var plan := OpeningPlan(mode);
    OpeningStarts(mode);
    var undo: seq<Action> := [Do(GoBack(CreateAccount), {CreateAccount}), Die];
    assert undo[1..] == [Die] && undo[1..][1..] == [];
    assert CreateAccount in plan[IndexOf(plan, CreateAccount)..];
    actions := LeavingBeforeRecording(plan, stepMax, 1, undo);
  }

  /** The same after a failure of the home step for which trying again is pointless. */
  lemma DeathAfterAFinalFailure(mode: Mode, stepMax: int) returns (actions: seq<Action>)
    ensures SucceedsWithoutAccount(OpeningPlan(mode), stepMax, actions)
  {
    var plan := OpeningPlan(mode);
    OpeningStarts(mode);
    actions := FinalFailureThen(plan, stepMax, Die);
  }

  /** The same without any death: the job is closed, and END row, parking and release all fail. */
  lemma ClosingWithoutARecord(mode: Mode, stepMax: int) returns (actions: seq<Action>)
    ensures SucceedsWithoutAccount(OpeningPlan(mode), stepMax, actions)
    ensures Die !in actions
  {
    var plan := OpeningPlan(mode);
    OpeningStarts(mode);
    actions := FinalFailureThen(plan, stepMax, Close(false, false));
  }

  lemma FinalFailureTakesTheAccount(plan: Plan, stepMax: int, j: Job, leave: Action)
    requires Leaves(leave) && Distinct(plan) && |plan| >= 2 && plan[0] == CreateAccount && plan[1] == CreateHome
    requires Opening(j, plan[..1])
    ensures AccountGoes(plan, stepMax, j, [Do(Stop(FailedEnd), {CreateAccount}), leave])
  {
    var undo: seq<Action> := [Do(Stop(FailedEnd), {CreateAccount}), leave];
    assert undo[1..] == [leave] && undo[1..][1..] == [];
    assert CreateAccount in plan[IndexOf(plan, CreateAccount)..];
    var failed := Act(plan, stepMax, j, undo[0]).value;
    assert failed.run == Some(j.run.value.(phase := Over(FailedEnd))) && failed.stored == j.stored;
    assert Play(plan, stepMax, failed, [leave]) == Act(plan, stepMax, failed, leave);
  }

  lemma FinalFailureThen(plan: Plan, stepMax: int, leave: Action) returns (actions: seq<Action>)
    requires Leaves(leave) && Distinct(plan) && |plan| >= 2 && plan[0] == CreateAccount && plan[1] == CreateHome
    ensures SucceedsWithoutAccount(plan, stepMax, actions)
    ensures !leave.Die? ==> Die !in actions
  {
    var undo: seq<Action> := [Do(Stop(FailedEnd), {CreateAccount}), leave];
    assert undo[1..] == [leave] && undo[1..][1..] == [];
    assert CreateAccount in plan[IndexOf(plan, CreateAccount)..];
    forall j | Opening(j, plan[..1]) ensures AccountGoes(plan, stepMax, j, undo) {
      FinalFailureTakesTheAccount(plan, stepMax, j, leave);
    }
    actions := LeavingBeforeRecording(plan, stepMax, 1, undo);
  }

  /** The same when the job has failed later, and the compensation has deleted the account again. */
  lemma DeathAfterCompensation(mode: Mode, stepMax: int) returns (actions: seq<Action>)
    ensures SucceedsWithoutAccount(OpeningPlan(mode), stepMax, actions)
  {
    var plan := OpeningPlan(mode);
    OpeningStarts(mode);
    var undo: seq<Action> := [Do(Stop(FailedEnd), {}), Compensate({CreateAccount}), Die];
    assert undo[1..] == [Compensate({CreateAccount}), Die] && undo[1..][1..] == [Die] && undo[1..][1..][1..] == [];
    assert plan[..3][2] == CreateKrb5Principal;
    actions := LeavingBeforeRecording(plan, stepMax, 3, undo);
  }

  // ---------- the engine's own passes are histories ----------

  /** The moves of a pass; the k-th undoes whatever of `undone(k)` it can. */
  function AsActions(plan: Plan, stepMax: int, r: RunState, moves: seq<Move>, undone: nat -> set<StepName>, k: nat): seq<Action>
    requires Replay(plan, stepMax, r, moves).Some?
    decreases |moves|
  {
    if moves == [] then []
    else [Do(moves[0], undone(k) * MayUndo(plan, r, moves[0]))]
         + AsActions(plan, stepMax, Apply(plan, stepMax, r, moves[0]).value, moves[1..], undone, k + 1)
  }

  lemma {:induction false} MovesPlay(plan: Plan, stepMax: int, j: Job, moves: seq<Move>, undone: nat -> set<StepName>, k: nat)
    requires j.run.Some? && Replay(plan, stepMax, j.run.value, moves).Some?
    requires AllDeclared(plan, stepMax, j.run.value, moves)
    ensures var actions := AsActions(plan, stepMax, j.run.value, moves, undone, k);
            && Play(plan, stepMax, j, actions).Some?
            && Play(plan, stepMax, j, actions).value.run == Replay(plan, stepMax, j.run.value, moves)
    decreases |moves|
  {
    if moves != [] {
      var actions := AsActions(plan, stepMax, j.run.value, moves, undone, k);
      var next := Act(plan, stepMax, j, actions[0]).value;
      assert actions[1..] == AsActions(plan, stepMax, next.run.value, moves[1..], undone, k + 1);
      MovesPlay(plan, stepMax, next, moves[1..], undone, k + 1);
    }
  }

  /** Resuming a job and running the engine's loop to its end is one of the histories above. */
  lemma PassIsAHistory(cfg: Config, plan: Plan, w: World, j: Job, undone: nat -> set<StepName>)
    requires KnownRestarts(w) && j.run.None? && !j.ended && !(cfg.baseline && j.stored != [])
    ensures var pass := RunJobSpec(cfg, plan, w, j.stored);
            && Replay(plan, cfg.stepMax, Start(j.stored), pass.moves).Some?
            && var actions := [Resume] + AsActions(plan, cfg.stepMax, Start(j.stored), pass.moves, undone, 0);
               && Play(plan, cfg.stepMax, j, actions).Some?
               && Play(plan, cfg.stepMax, j, actions).value.run == Some(pass.state)
  {
    var pass := RunJobSpec(cfg, plan, w, j.stored);
    RunDeclared(cfg, plan, w, 0, Start(j.stored));
    MovesPlay(plan, cfg.stepMax, j.(run := Some(Start(j.stored))), pass.moves, undone, 0);
    var rest := AsActions(plan, cfg.stepMax, Start(j.stored), pass.moves, undone, 0);
    assert ([Resume] + rest)[1..] == rest;
  }

  /**
   * A displaced controller leaves the job alone: after a record answered by another owner, or an attempt that met
   * the lost lease, its pass has ended where it may neither compensate nor close the job.
   */
  lemma DisplacedStandsDown(cfg: Config, plan: Plan, w: World, j: Job, found: Plan, undone: set<StepName>,
                            recorded: bool, released: bool)
    requires !(found != [] && cfg.baseline) && j.run == Some(RunJobSpec(cfg, plan, w, found).state)
    requires var moves := RunJobSpec(cfg, plan, w, found).moves;
             && moves != [] && Replay(plan, cfg.stepMax, Start(found), moves[..|moves| - 1]).Some?
             && var r, t := Replay(plan, cfg.stepMax, Start(found), moves[..|moves| - 1]).value,
                            TurnAt(plan, cfg.stepMax, 0, Start(found), moves[..|moves| - 1]);
                if r.phase.Saving? then w.save(t).OwnerChanged?
                else IsCalled(cfg, plan, w, t, r) && CallLosesLease(cfg, plan, w, t, r)
    ensures j.run.value.phase == Over(LeaseGone)
    ensures Act(plan, cfg.stepMax, j, Compensate(undone)) == None
    ensures Act(plan, cfg.stepMax, j, Close(recorded, released)) == None
  {
    PassEndsByItsLastAnswer(cfg, plan, w, found);
  }

  // ---------- who may undo what ----------

  /**
   * A move takes away effects of steps only if it is the failure of a step that tears down others as well: it goes
   * back, gives up or ends the job as failed, and what it takes away lies at that step's restart point or behind it.
   */
  lemma UndoneExactly(plan: Plan, stepMax: int, j: Job, m: Move, undone: set<StepName>)
    requires Act(plan, stepMax, j, Do(m, {})).Some?
    ensures Act(plan, stepMax, j, Do(m, undone)).Some? <==>
              undone == {} ||
              var r := j.run.value;
              && (m.GoBack? || m.GiveUp? || m == Stop(FailedEnd))
              && r.phase.Walking? && r.i < |plan| && !CountsAsDone(r.done, plan[r.i])
              && RestartPoint(plan[r.i]).Some?
              && forall s :: s in undone ==>
                   exists k, l :: 0 <= k <= l < |plan| && plan[k] == RestartPoint(plan[r.i]).value && plan[l] == s
  {
    var r := j.run.value;
    if r.phase.Walking? && r.i < |plan| && RestartPoint(plan[r.i]).Some? {
      UndoneLiesBehind(plan, RestartPoint(plan[r.i]).value);
    }
  }

  lemma UndoneLiesBehind(plan: Plan, to: StepName)
    ensures forall s :: s in UndoneBy(plan, to) <==> exists k, l :: 0 <= k <= l < |plan| && plan[k] == to && plan[l] == s
  {
    if to in plan {
      var first := IndexOf(plan, to);
      forall s ensures s in plan[first..] <==> exists k, l :: 0 <= k <= l < |plan| && plan[k] == to && plan[l] == s {
        if s in plan[first..] {
          var l :| 0 <= l < |plan[first..]| && plan[first..][l] == s;
          assert plan[first] == to && plan[first + l] == s;
        }
        if k, l :| 0 <= k <= l < |plan| && plan[k] == to && plan[l] == s {
          assert plan[first..][l - first] == s;
        }
      }
    }
  }

  /** The compensation comes after a failed or interrupted pass whose list has the principal, and takes the account. */
  lemma CompensatedExactly(plan: Plan, stepMax: int, j: Job, undone: set<StepName>)
    ensures var next := Act(plan, stepMax, j, Compensate(undone));
            && (next.Some? <==>
                  && j.run.Some? && (j.run.value.phase == Over(FailedEnd) || j.run.value.phase == Over(Interrupted))
                  && CreateKrb5Principal in j.run.value.done
                  && forall s :: s in undone ==>
                       s.CreateAccount? || s.CreateKrb5Principal? || s.AwaitAdReplication? || s.SyncAdGroups?)
            && (next.Some? ==> next.value == j.(intact := j.intact - undone))
  {
    assert undone <= COMPENSATED <==> forall s :: s in undone ==> s in COMPENSATED;
  }
}
