/**
 * One pass of a controller over the plan of a job: skip what is recorded as done, run the rest, record each
 * finished step, go back when a step has torn down the work of earlier ones.
 */
module Runner {
  import opened Prelude
  import opened Plans
  import opened Engine

  datatype End =
    | Success(skipped: bool)
    | LeaseGone
    | GaveUp(reason: Reason, unknowable: bool)
    | FailedEnd
    | Interrupted

  datatype Phase = Walking | Saving | Over(end: End)

  /** The local variables of the engine: position, finished steps, rewinds so far. */
  datatype RunState = RunState(i: nat, done: Plan, rewinds: nat, phase: Phase)

  function Start(done: Plan): RunState {
    RunState(0, done, 0, Walking)
  }

  /** The observable moves of a pass. Everything between two moves is invisible to other processes. */
  datatype Move =
    | Pass
    | Complete(step: StepName)
    | GoBack(to: StepName)
    | GiveUp(to: StepName, end: End)
    | Save
    | Stop(end: End)

  predicate CountsAsDone(done: Plan, step: StepName) {
    step !in ALWAYS_RERUN
    && (match Partner(step) case Some(p) => p in done case None => step in done)
  }

  function IndexOf(plan: Plan, step: StepName): (k: nat)
    requires step in plan
    ensures k < |plan| && plan[k] == step && step !in plan[..k]
  {
    if plan[0] == step then 0 else 1 + IndexOf(plan[1..], step)
  }

  /** The finished steps that survive going back: those not among `dropped`. */
  function Without(done: Plan, dropped: Plan): Plan {
    if done == [] then []
    else (if done[0] in dropped then [] else [done[0]]) + Without(done[1..], dropped)
  }

  function Recordables(plan: Plan): Plan {
    if plan == [] then []
    else (if Recordable(plan[0]) then [plan[0]] else []) + Recordables(plan[1..])
  }

  /** One move from a state; None when the engine cannot make it there. */
  function Apply(plan: Plan, stepMax: int, s: RunState, m: Move): Option<RunState> {
    if s.phase.Over? then None
    else
      match m
      case Save => Some(s.(phase := Walking))
      case Stop(end) =>
        if !end.Success? then Some(s.(phase := Over(end)))
        else if s.phase.Saving? || (end.skipped <==> s.i >= |plan|) then None
        else Some(s.(phase := Over(end)))
      case Pass =>
        if s.phase.Saving? || s.i >= |plan| || !CountsAsDone(s.done, plan[s.i]) then None
        else Some(s.(i := s.i + 1))
      case Complete(step) =>
        if s.phase.Saving? || s.i >= |plan| || CountsAsDone(s.done, plan[s.i]) || plan[s.i] != step then None
        else if Recordable(step) then Some(RunState(s.i + 1, s.done + [step], s.rewinds, Saving))
        else Some(s.(i := s.i + 1))
      case GoBack(to) =>
        if s.phase.Saving? || s.i >= |plan| || CountsAsDone(s.done, plan[s.i])
           || to !in plan || s.rewinds >= stepMax - 1 then None
        else
          var j := IndexOf(plan, to);
          Some(RunState(j, Without(s.done, plan[j..]), s.rewinds + 1, Saving))
      case GiveUp(to, end) =>
        if s.phase.Saving? || s.i >= |plan| || CountsAsDone(s.done, plan[s.i]) || end.Success? then None
        else Some(s.(phase := Over(end)))
  }

  function Replay(plan: Plan, stepMax: int, s: RunState, moves: seq<Move>): Option<RunState>
    decreases |moves|
  {
    if moves == [] then Some(s)
    else
      match Apply(plan, stepMax, s, moves[0])
      case None => None
      case Some(next) => Replay(plan, stepMax, next, moves[1..])
  }

  lemma {:induction false} ReplayJoin(plan: Plan, stepMax: int, s: RunState, a: seq<Move>, b: seq<Move>)
    requires Replay(plan, stepMax, s, a).Some?
    ensures Replay(plan, stepMax, s, a + b) == Replay(plan, stepMax, Replay(plan, stepMax, s, a).value, b)
    decreases |a|
  {
    if a == [] {
      assert a + b == b;
    } else {
      assert (a + b)[0] == a[0] && (a + b)[1..] == a[1..] + b;
      ReplayJoin(plan, stepMax, Apply(plan, stepMax, s, a[0]).value, a[1..], b);
    }
  }

  // ---------- the pass as a function of everything outside the engine ----------

  datatype Judgement = WroteEverything | MustRun | CannotTell

  datatype SaveResult = Saved | OwnerChanged | StoreFailed

  /** What the outside world answers on the t-th turn of the loop. */
  datatype World = World(
    script: (nat, StepName) -> Script,
    judge: nat -> Judgement,
    skipped: nat -> bool,
    save: nat -> SaveResult)

  /** The result of a turn: the moves made, the state after them, the attempts spent. */
  datatype Turn = Turn(moves: seq<Move>, state: RunState, attempts: nat)

  function AfterSave(moves: seq<Move>, s: RunState, result: SaveResult, attempts: nat): Turn {
    match result
    case Saved => Turn(moves + [Save], s.(phase := Walking), attempts)
    case OwnerChanged => Turn(moves + [Stop(LeaseGone)], s.(phase := Over(LeaseGone)), attempts)
    case StoreFailed => Turn(moves + [Stop(FailedEnd)], s.(phase := Over(FailedEnd)), attempts)
  }

  function Ending(s: RunState, m: Move, end: End, attempts: nat): Turn {
    Turn([m], s.(phase := Over(end)), attempts)
  }

  function Settle(cfg: Config, plan: Plan, w: World, t: nat, s: RunState, outcome: Outcome, attempts: nat): Turn
    requires s.i < |plan|
  {
    var step := plan[s.i];
    match outcome
    case Done =>
      if Recordable(step) then
        AfterSave([Complete(step)], RunState(s.i + 1, s.done + [step], s.rewinds, Saving), w.save(t), attempts)
      else Turn([Complete(step)], s.(i := s.i + 1), attempts)
    case LeaseLost => Ending(s, Stop(LeaseGone), LeaseGone, attempts)
    case Degraded(reason, unknowable) => Ending(s, Stop(GaveUp(reason, unknowable)), GaveUp(reason, unknowable), attempts)
    case Failed => Ending(s, Stop(FailedEnd), FailedEnd, attempts)
    case Rewind(to) =>
      if to !in plan then Ending(s, GiveUp(to, FailedEnd), FailedEnd, attempts)
      else if s.rewinds >= cfg.stepMax - 1 then
        Ending(s, GiveUp(to, GaveUp(RetriesExhausted, false)), GaveUp(RetriesExhausted, false), attempts)
      else
        var j := IndexOf(plan, to);
        AfterSave([GoBack(to)], RunState(j, Without(s.done, plan[j..]), s.rewinds + 1, Saving), w.save(t), attempts)
  }

  /** The judge that can find an interrupted attempt complete exists for the account step alone. */
  predicate Judged(cfg: Config, step: StepName) {
    !cfg.baseline && step == CreateAccount
  }

  function OneTurn(cfg: Config, plan: Plan, w: World, t: nat, s: RunState): Turn
    requires s.phase.Walking? && s.i < |plan|
  {
    var step := plan[s.i];
    if w.skipped(t) then Ending(s, Stop(Success(true)), Success(true), 0)
    else if CountsAsDone(s.done, step) then Turn([Pass], s.(i := s.i + 1), 0)
    else if Judged(cfg, step) && w.judge(t).WroteEverything? then Settle(cfg, plan, w, t, s, Done, 0)
    else if Judged(cfg, step) && w.judge(t).CannotTell? then
      Settle(cfg, plan, w, t, s, Degraded(ObserveFailed, true), 0)
    else
      var (outcome, attempts) := Execution(cfg, step, w.script(t, step), 0);
      Settle(cfg, plan, w, t, s, outcome, attempts)
  }

  /** A turn moves forward in the plan, or spends a rewind. */
  lemma TurnProgress(cfg: Config, plan: Plan, w: World, t: nat, s: RunState)
    requires s.phase.Walking? && s.i < |plan|
    ensures var next := OneTurn(cfg, plan, w, t, s).state;
            !next.phase.Saving? && (next.phase.Walking? ==>
              (next.rewinds == s.rewinds && next.i == s.i + 1)
              || (next.rewinds == s.rewinds + 1 < cfg.stepMax && next.i < |plan|))
  {
  }

  function RunFrom(cfg: Config, plan: Plan, w: World, t: nat, s: RunState): Turn
    requires s.phase.Walking? && s.i <= |plan|
    decreases cfg.stepMax - s.rewinds, |plan| - s.i
  {
    if s.i == |plan| then Ending(s, Stop(Success(false)), Success(false), 0)
    else
      var turn := OneTurn(cfg, plan, w, t, s);
      if turn.state.phase.Walking? then
        var rest := RunFrom(cfg, plan, w, t + 1, turn.state);
        Turn(turn.moves + rest.moves, rest.state, turn.attempts + rest.attempts)
      else turn
  }

  /** The whole pass from the finished steps found in the lease row. */
  function RunJobSpec(cfg: Config, plan: Plan, w: World, found: Plan): Turn {
    if found != [] && cfg.baseline then Ending(Start(found), Stop(Interrupted), Interrupted, 0)
    else RunFrom(cfg, plan, w, 0, Start(found))
  }

  /** Runs the step at hand, unless the judge settles it first. */
  method Perform(cfg: Config, step: StepName, judgement: Judgement, script: Script)
    returns (outcome: Outcome, attempts: nat)
    ensures Judged(cfg, step) && judgement.WroteEverything? ==> outcome == Done && attempts == 0
    ensures Judged(cfg, step) && judgement.CannotTell? ==> outcome == Degraded(ObserveFailed, true) && attempts == 0
    ensures !Judged(cfg, step) || judgement.MustRun? ==> (outcome, attempts) == Execution(cfg, step, script, 0)
  {
    if !cfg.baseline && step == CreateAccount {
      if judgement.CannotTell? { return Degraded(ObserveFailed, true), 0; }
      if judgement.WroteEverything? { return Done, 0; }
    }
    outcome, attempts := ExecuteStep(cfg, step, script);
  }

  /** One turn of the loop, on the loop's variables. */
  method TakeTurn(cfg: Config, plan: Plan, w: World, t: nat, i: nat, done: Plan, rewinds: nat)
    returns (turn: Turn)
    requires i < |plan|
    ensures turn == OneTurn(cfg, plan, w, t, RunState(i, done, rewinds, Walking))
  {
    var step := plan[i];
    if w.skipped(t) {
      return Turn([Stop(Success(true))], RunState(i, done, rewinds, Over(Success(true))), 0);
    }
    if CountsAsDone(done, step) {
      return Turn([Pass], RunState(i + 1, done, rewinds, Walking), 0);
    }
    var outcome, attempts := Perform(cfg, step, w.judge(t), w.script(t, step));
    var s := RunState(i, done, rewinds, Walking);
    var moves: seq<Move>;
    match outcome {
      case LeaseLost =>
        return Turn([Stop(LeaseGone)], s.(phase := Over(LeaseGone)), attempts);
      case Degraded(reason, unknowable) =>
        var end := GaveUp(reason, unknowable);
        return Turn([Stop(end)], s.(phase := Over(end)), attempts);
      case Failed =>
        return Turn([Stop(FailedEnd)], s.(phase := Over(FailedEnd)), attempts);
      case Done =>
        s, moves := s.(i := i + 1), [Complete(step)];
        if !Recordable(step) {
          return Turn(moves, s, attempts);
        }
        s := s.(done := done + [step]);
      case Rewind(to) =>
        if to !in plan || rewinds >= cfg.stepMax - 1 {
          var end := if to !in plan then FailedEnd else GaveUp(RetriesExhausted, false);
          return Turn([GiveUp(to, end)], s.(phase := Over(end)), attempts);
        }
        var j := IndexOf(plan, to);
        s, moves := RunState(j, Without(done, plan[j..]), rewinds + 1, Walking), [GoBack(to)];
    }
    match w.save(t) {
      case Saved => turn := Turn(moves + [Save], s, attempts);
      case OwnerChanged => turn := Turn(moves + [Stop(LeaseGone)], s.(phase := Over(LeaseGone)), attempts);
      case StoreFailed => turn := Turn(moves + [Stop(FailedEnd)], s.(phase := Over(FailedEnd)), attempts);
    }
  }

  /** `whole` is the pass: `moves` and `attempts` so far, then `rest`. */
  ghost predicate Continues(whole: Turn, moves: seq<Move>, attempts: nat, rest: Turn) {
    whole == Turn(moves + rest.moves, rest.state, attempts + rest.attempts)
  }

  lemma ContinuesWith(cfg: Config, plan: Plan, w: World, t: nat, s: RunState, turn: Turn,
                      whole: Turn, moves: seq<Move>, attempts: nat)
    requires s.phase.Walking? && s.i < |plan| && turn == OneTurn(cfg, plan, w, t, s)
    requires Continues(whole, moves, attempts, RunFrom(cfg, plan, w, t, s))
    ensures if turn.state.phase.Walking? then
              && turn.state.i <= |plan|
              && Continues(whole, moves + turn.moves, attempts + turn.attempts, RunFrom(cfg, plan, w, t + 1, turn.state))
            else
              turn.state.phase.Over? && whole == Turn(moves + turn.moves, turn.state, attempts + turn.attempts)
  {
    TurnProgress(cfg, plan, w, t, s);
    if turn.state.phase.Walking? {
      var rest := RunFrom(cfg, plan, w, t + 1, turn.state);
      assert moves + (turn.moves + rest.moves) == moves + turn.moves + rest.moves;
    }
  }

  /** The engine itself: a loop over a mutable position, list of finished steps and rewind count. */
  method RunJob(cfg: Config, plan: Plan, w: World, found: Plan)
    returns (end: End, done: Plan, moves: seq<Move>, attempts: nat)
    ensures var spec := RunJobSpec(cfg, plan, w, found);
            spec.state.phase == Over(end) && spec.state.done == done && spec.moves == moves && spec.attempts == attempts
  {
    done, moves, attempts := found, [], 0;
    if done != [] && cfg.baseline {
      return Interrupted, done, [Stop(Interrupted)], 0;
    }
    var rewinds: nat, i: nat, t: nat := 0, 0, 0;
    ghost var whole := RunFrom(cfg, plan, w, 0, Start(found));
    while i < |plan|
      invariant i <= |plan|
      invariant Continues(whole, moves, attempts, RunFrom(cfg, plan, w, t, RunState(i, done, rewinds, Walking)))
      decreases cfg.stepMax - rewinds, |plan| - i
    {
      ghost var here := RunState(i, done, rewinds, Walking);
      var turn := TakeTurn(cfg, plan, w, t, i, done, rewinds);
      ContinuesWith(cfg, plan, w, t, here, turn, whole, moves, attempts);
      TurnProgress(cfg, plan, w, t, here);
      moves, attempts := moves + turn.moves, attempts + turn.attempts;
      i, done, rewinds := turn.state.i, turn.state.done, turn.state.rewinds;
      t := t + 1;
      if turn.state.phase.Over? {
        end := turn.state.phase.end;
        return;
      }
      assert turn.state == RunState(i, done, rewinds, Walking);
    }
    end, moves := Success(false), moves + [Stop(Success(false))];
  }
}
