/** What every pass of the engine keeps: the finished steps are an initial segment, and the work is bounded. */
module RunnerLaws {
  import opened Prelude
  import opened Plans
  import opened Engine
  import opened Runner

  // ---------- a pass is a sequence of moves ----------

  lemma OneMove(plan: Plan, stepMax: int, s: RunState, m: Move, next: RunState)
    requires Apply(plan, stepMax, s, m) == Some(next)
    ensures Replay(plan, stepMax, s, [m]) == Some(next)
  {
  }

  lemma TwoMoves(plan: Plan, stepMax: int, s: RunState, m: Move, mid: RunState, m': Move, next: RunState)
    requires Apply(plan, stepMax, s, m) == Some(mid) && Apply(plan, stepMax, mid, m') == Some(next)
    ensures Replay(plan, stepMax, s, [m] + [m']) == Some(next)
  {
    OneMove(plan, stepMax, s, m, mid);
    OneMove(plan, stepMax, mid, m', next);
    ReplayJoin(plan, stepMax, s, [m], [m']);
  }

  /** A move that must be recorded, followed by whatever the record attempt brings. */
  lemma SaveReplays(plan: Plan, stepMax: int, s: RunState, m: Move, mid: RunState, result: SaveResult, attempts: nat)
    requires Apply(plan, stepMax, s, m) == Some(mid) && mid.phase.Saving?
    ensures var turn := AfterSave([m], mid, result, attempts);
            Replay(plan, stepMax, s, turn.moves) == Some(turn.state)
  {
    match result {
      case Saved => TwoMoves(plan, stepMax, s, m, mid, Save, mid.(phase := Walking));
      case OwnerChanged => TwoMoves(plan, stepMax, s, m, mid, Stop(LeaseGone), mid.(phase := Over(LeaseGone)));
      case StoreFailed => TwoMoves(plan, stepMax, s, m, mid, Stop(FailedEnd), mid.(phase := Over(FailedEnd)));
    }
  }

  lemma SettleReplays(cfg: Config, plan: Plan, w: World, t: nat, s: RunState, outcome: Outcome, attempts: nat)
    requires s.phase.Walking? && s.i < |plan| && !CountsAsDone(s.done, plan[s.i])
    ensures var turn := Settle(cfg, plan, w, t, s, outcome, attempts);
            Replay(plan, cfg.stepMax, s, turn.moves) == Some(turn.state)
  {
    var step := plan[s.i];
    var turn := Settle(cfg, plan, w, t, s, outcome, attempts);
    match outcome {
      case Done =>
        if Recordable(step) {
          SaveReplays(plan, cfg.stepMax, s, Complete(step),
                      RunState(s.i + 1, s.done + [step], s.rewinds, Saving), w.save(t), attempts);
        } else {
          OneMove(plan, cfg.stepMax, s, Complete(step), turn.state);
        }
      case Rewind(to) =>
        if to in plan && s.rewinds < cfg.stepMax - 1 {
          var j := IndexOf(plan, to);
          SaveReplays(plan, cfg.stepMax, s, GoBack(to),
                      RunState(j, Without(s.done, plan[j..]), s.rewinds + 1, Saving), w.save(t), attempts);
        } else {
          OneMove(plan, cfg.stepMax, s, turn.moves[0], turn.state);
        }
      case _ => OneMove(plan, cfg.stepMax, s, turn.moves[0], turn.state);
    }
  }

  lemma TurnReplays(cfg: Config, plan: Plan, w: World, t: nat, s: RunState)
    requires s.phase.Walking? && s.i < |plan|
    ensures var turn := OneTurn(cfg, plan, w, t, s);
            Replay(plan, cfg.stepMax, s, turn.moves) == Some(turn.state)
  {
    var turn := OneTurn(cfg, plan, w, t, s);
    if w.skipped(t) || CountsAsDone(s.done, plan[s.i]) {
      OneMove(plan, cfg.stepMax, s, turn.moves[0], turn.state);
    } else if Judged(cfg, plan[s.i]) && w.judge(t).WroteEverything? {
      SettleReplays(cfg, plan, w, t, s, Done, 0);
    } else if Judged(cfg, plan[s.i]) && w.judge(t).CannotTell? {
      SettleReplays(cfg, plan, w, t, s, Degraded(ObserveFailed, true), 0);
    } else {
      var (outcome, attempts) := Execution(cfg, plan[s.i], w.script(t, plan[s.i]), 0);
      SettleReplays(cfg, plan, w, t, s, outcome, attempts);
    }
  }

  /** What the loop computes is what its moves do: cut anywhere, they are what a crash leaves behind. */
  lemma {:induction false} RunReplays(cfg: Config, plan: Plan, w: World, t: nat, s: RunState)
    requires s.phase.Walking? && s.i <= |plan|
    ensures var run := RunFrom(cfg, plan, w, t, s);
            Replay(plan, cfg.stepMax, s, run.moves) == Some(run.state)
    decreases cfg.stepMax - s.rewinds, |plan| - s.i
  {
    if s.i == |plan| {
      OneMove(plan, cfg.stepMax, s, Stop(Success(false)), s.(phase := Over(Success(false))));
    } else {
      TurnReplays(cfg, plan, w, t, s);
      TurnProgress(cfg, plan, w, t, s);
      var turn := OneTurn(cfg, plan, w, t, s);
      if turn.state.phase.Walking? {
        RunReplays(cfg, plan, w, t + 1, turn.state);
        ReplayJoin(plan, cfg.stepMax, s, turn.moves, RunFrom(cfg, plan, w, t + 1, turn.state).moves);
      }
    }
  }

  // ---------- the bound on step calls ----------

  /** The larger attempt limit; the baseline's single attempt is the least it can be. */
  function AttemptLimit(cfg: Config): nat {
    Max(1, Max(cfg.stepMax, cfg.verifyMax))
  }

  lemma TurnAttempts(cfg: Config, plan: Plan, w: World, t: nat, s: RunState)
    requires s.phase.Walking? && s.i < |plan|
    ensures OneTurn(cfg, plan, w, t, s).attempts <= AttemptLimit(cfg)
  {
  }

  /** Passes still allowed over the plan, including the present one. */
  function PassesLeft(cfg: Config, s: RunState): int {
    Max(1, cfg.stepMax) - s.rewinds
  }

  /** `k` times `a`, by repeated addition. */
  function Times(k: nat, a: nat): nat {
    if k == 0 then 0 else a + Times(k - 1, a)
  }

  lemma {:induction false} TimesIsProduct(k: nat, a: nat)
    ensures Times(k, a) == k * a
  {
    if k > 0 {
      TimesIsProduct(k - 1, a);
      assert k * a == (k - 1) * a + a;
    }
  }

  lemma {:induction false} TimesGrows(j: nat, k: nat, a: nat)
    requires j <= k
    ensures Times(j, a) <= Times(k, a)
  {
    if j < k { TimesGrows(j, k - 1, a); }
  }

  /** Turns still to come: the rest of this pass and every further pass allowed. */
  function TurnsLeft(cfg: Config, plan: Plan, s: RunState): int
    requires s.rewinds < Max(1, cfg.stepMax)
  {
    |plan| - s.i + Times(PassesLeft(cfg, s) - 1, |plan|)
  }

  /** A turn costs one limit at most, and it uses up at least one of the turns left. */
  lemma TurnCosts(cfg: Config, plan: Plan, w: World, t: nat, s: RunState)
    requires s.phase.Walking? && s.i < |plan| && s.rewinds < Max(1, cfg.stepMax)
    ensures var turn := OneTurn(cfg, plan, w, t, s);
            && turn.attempts <= AttemptLimit(cfg)
            && (turn.state.phase.Walking? ==>
                  && turn.state.i <= |plan| && turn.state.rewinds < Max(1, cfg.stepMax)
                  && TurnsLeft(cfg, plan, turn.state) < TurnsLeft(cfg, plan, s))
  {
    TurnAttempts(cfg, plan, w, t, s);
    TurnProgress(cfg, plan, w, t, s);
  }

  lemma AttemptsAdd(turn: nat, rest: nat, limit: nat, left': nat, left: nat)
    requires turn <= limit && rest <= Times(left', limit) && left' < left
    ensures turn + rest <= Times(left, limit)
  {
  }

  lemma {:induction false} AttemptsFrom(cfg: Config, plan: Plan, w: World, t: nat, s: RunState)
    requires s.phase.Walking? && s.i <= |plan| && s.rewinds < Max(1, cfg.stepMax)
    ensures RunFrom(cfg, plan, w, t, s).attempts <= Times(TurnsLeft(cfg, plan, s), AttemptLimit(cfg))
    decreases cfg.stepMax - s.rewinds, |plan| - s.i
  {
    if s.i < |plan| {
      TurnCosts(cfg, plan, w, t, s);
      TurnProgress(cfg, plan, w, t, s);
      var turn := OneTurn(cfg, plan, w, t, s);
      if turn.state.phase.Walking? {
        AttemptsFrom(cfg, plan, w, t + 1, turn.state);
        AttemptsAdd(turn.attempts, RunFrom(cfg, plan, w, t + 1, turn.state).attempts, AttemptLimit(cfg),
                    TurnsLeft(cfg, plan, turn.state), TurnsLeft(cfg, plan, s));
      } else {
        AttemptsAdd(turn.attempts, 0, AttemptLimit(cfg), 0, TurnsLeft(cfg, plan, s));
      }
    }
  }

  lemma TimesIsTripleProduct(a: nat, b: nat, c: nat)
    ensures Times(Times(a, b), c) == a * b * c
  {
    TimesIsProduct(a, b);
    TimesIsProduct(Times(a, b), c);
  }

  lemma TurnsAtStart(cfg: Config, plan: Plan, found: Plan)
    ensures TurnsLeft(cfg, plan, Start(found)) == Times(Max(1, cfg.stepMax), |plan|)
  {
  }

  lemma AttemptsInTurns(cfg: Config, plan: Plan, w: World, found: Plan)
    ensures RunJobSpec(cfg, plan, w, found).attempts <= Times(Times(Max(1, cfg.stepMax), |plan|), AttemptLimit(cfg))
  {
    TurnsAtStart(cfg, plan, found);
    if !(found != [] && cfg.baseline) {
      AttemptsFrom(cfg, plan, w, 0, Start(found));
    }
  }

  /** All attempts of one pass: at most passes times plan length times the larger attempt limit. */
  lemma AttemptsAreBounded(cfg: Config, plan: Plan, w: World, found: Plan)
    ensures RunJobSpec(cfg, plan, w, found).attempts <= Max(1, cfg.stepMax) * |plan| * AttemptLimit(cfg)
  {
    AttemptsInTurns(cfg, plan, w, found);
    TimesIsTripleProduct(Max(1, cfg.stepMax), |plan|, AttemptLimit(cfg));
  }

  // ---------- the finished steps are an initial segment ----------

  lemma {:induction false} RecordablesJoin(a: Plan, b: Plan)
    ensures Recordables(a + b) == Recordables(a) + Recordables(b)
  {
    if a == [] {
      assert a + b == b;
    } else {
      var head := if Recordable(a[0]) then [a[0]] else [];
      assert (a + b)[0] == a[0] && (a + b)[1..] == a[1..] + b;
      RecordablesJoin(a[1..], b);
      assert head + (Recordables(a[1..]) + Recordables(b)) == head + Recordables(a[1..]) + Recordables(b);
    }
  }

  lemma RecordablesSplit(plan: Plan, i: nat)
    requires i <= |plan|
    ensures Recordables(plan) == Recordables(plan[..i]) + Recordables(plan[i..])
  {
    assert plan == plan[..i] + plan[i..];
    RecordablesJoin(plan[..i], plan[i..]);
  }

  lemma RecordablesNext(plan: Plan, i: nat)
    requires i < |plan|
    ensures Recordables(plan[..i + 1]) == Recordables(plan[..i]) + (if Recordable(plan[i]) then [plan[i]] else [])
  {
    assert plan[..i + 1] == plan[..i] + [plan[i]];
    RecordablesJoin(plan[..i], [plan[i]]);
    assert Recordables([plan[i]]) == if Recordable(plan[i]) then [plan[i]] else [];
  }

  lemma {:induction false} RecordablesMembers(plan: Plan, s: StepName)
    ensures s in Recordables(plan) <==> s in plan && Recordable(s)
  {
    if plan != [] {
      RecordablesMembers(plan[1..], s);
      assert plan == [plan[0]] + plan[1..];
    }
  }

  lemma {:induction false} RecordablesDistinct(plan: Plan)
    requires Distinct(plan)
    ensures Distinct(Recordables(plan))
  {
    if plan != [] {
      var rest := Recordables(plan[1..]);
      RecordablesDistinct(plan[1..]);
      RecordablesMembers(plan[1..], plan[0]);
      assert Recordable(plan[0]) ==> plan[0] !in rest;
    }
  }

  lemma {:induction false} WithoutJoin(a: Plan, b: Plan, dropped: Plan)
    ensures Without(a + b, dropped) == Without(a, dropped) + Without(b, dropped)
  {
    if a == [] {
      assert a + b == b;
    } else {
      var head := if a[0] in dropped then [] else [a[0]];
      assert (a + b)[0] == a[0] && (a + b)[1..] == a[1..] + b;
      WithoutJoin(a[1..], b, dropped);
      assert head + (Without(a[1..], dropped) + Without(b, dropped)) == head + Without(a[1..], dropped) + Without(b, dropped);
    }
  }

  lemma {:induction false} WithoutNone(a: Plan, dropped: Plan)
    requires forall s :: s in a ==> s !in dropped
    ensures Without(a, dropped) == a
  {
    if a != [] { WithoutNone(a[1..], dropped); }
  }

  lemma {:induction false} WithoutAll(a: Plan, dropped: Plan)
    requires forall s :: s in a ==> s in dropped
    ensures Without(a, dropped) == []
  {
    if a != [] { WithoutAll(a[1..], dropped); }
  }

  /** `done` is an initial segment of the recordable steps. */
  predicate IsPrefix(plan: Plan, done: Plan) {
    done <= Recordables(plan)
  }

  /** The state of a pass: a segment, reaching at least as far as the position walked to. */
  ghost predicate Sound(plan: Plan, s: RunState) {
    && IsPrefix(plan, s.done)
    && s.i <= |plan|
    && (!s.phase.Over? ==> Recordables(plan[..s.i]) <= s.done)
  }

  /** A step goes back only to its own restart point. */
  predicate Declared(plan: Plan, s: RunState, m: Move) {
    m.GoBack? && s.i < |plan| ==> RestartPoint(plan[s.i]) == Some(m.to)
  }

  lemma StartIsSound(plan: Plan, done: Plan)
    requires IsPrefix(plan, done)
    ensures Sound(plan, Start(done))
  {
  }

  /** Going back keeps exactly the segment before the step gone back to. */
  lemma GoBackKeeps(plan: Plan, done: Plan, j: nat)
    requires Distinct(plan) && j <= |plan|
    requires IsPrefix(plan, done) && Recordables(plan[..j]) <= done
    ensures Without(done, plan[j..]) == Recordables(plan[..j])
  {
    RecordablesSplit(plan, j);
    var head := Recordables(plan[..j]);
    var tail := done[|head|..];
    assert done == head + tail;
    forall s | s in tail ensures s in plan[j..] {
      var k :| 0 <= k < |tail| && tail[k] == s;
      assert s == Recordables(plan)[|head| + k] == Recordables(plan[j..])[k];
      RecordablesMembers(plan[j..], s);
    }
    forall s | s in head ensures s !in plan[j..] {
      RecordablesMembers(plan[..j], s);
      var a :| 0 <= a < j && plan[a] == s;
      assert forall b :: j <= b < |plan| ==> plan[b] != plan[a];
    }
    WithoutJoin(head, tail, plan[j..]);
    WithoutNone(head, plan[j..]);
    WithoutAll(tail, plan[j..]);
  }

  /** A finished step the walk stands on is the next one of the segment, or beyond it. */
  lemma NextRecorded(plan: Plan, done: Plan, i: nat)
    requires Distinct(plan) && i < |plan| && Recordable(plan[i])
    requires IsPrefix(plan, done) && Recordables(plan[..i]) <= done
    ensures plan[i] in done ==> Recordables(plan[..i + 1]) <= done
    ensures plan[i] !in done ==> done == Recordables(plan[..i])
  {
    var all, head := Recordables(plan), Recordables(plan[..i]);
    RecordablesNext(plan, i);
    RecordablesSplit(plan, i + 1);
    RecordablesDistinct(plan);
    assert all[|head|] == plan[i];
    if plan[i] in done {
      var k :| 0 <= k < |done| && done[k] == plan[i];
      assert all[k] == plan[i];
      assert k == |head|;
      assert done[..|head| + 1] == head + [plan[i]];
    } else if |done| <= |head| {
      assert done == head;
    }
  }

  lemma GoBackIsSound(plan: Plan, stepMax: int, s: RunState, to: StepName)
    requires WellFormed(plan) && Sound(plan, s) && Declared(plan, s, GoBack(to))
    requires Apply(plan, stepMax, s, GoBack(to)).Some?
    ensures Sound(plan, Apply(plan, stepMax, s, GoBack(to)).value)
  {
    var j := IndexOf(plan, to);
    assert j <= s.i;
    assert plan[..j] == plan[..s.i][..j];
    RecordablesSplit(plan[..s.i], j);
    GoBackKeeps(plan, s.done, j);
    RecordablesSplit(plan, j);
  }

  lemma PassIsSound(plan: Plan, s: RunState)
    requires Distinct(plan) && Sound(plan, s) && s.phase.Walking? && s.i < |plan| && CountsAsDone(s.done, plan[s.i])
    ensures Sound(plan, s.(i := s.i + 1))
  {
    RecordablesNext(plan, s.i);
    if Recordable(plan[s.i]) { NextRecorded(plan, s.done, s.i); }
  }

  lemma CompleteIsSound(plan: Plan, s: RunState)
    requires Distinct(plan) && Sound(plan, s) && s.phase.Walking? && s.i < |plan| && !CountsAsDone(s.done, plan[s.i])
    ensures Recordable(plan[s.i]) ==>
              s.done == Recordables(plan[..s.i]) && Sound(plan, RunState(s.i + 1, s.done + [plan[s.i]], s.rewinds, Saving))
    ensures !Recordable(plan[s.i]) ==> Sound(plan, s.(i := s.i + 1))
  {
    RecordablesNext(plan, s.i);
    if Recordable(plan[s.i]) {
      NextRecorded(plan, s.done, s.i);
      RecordablesSplit(plan, s.i + 1);
    }
  }

  /** Every move of the engine keeps the finished steps an initial segment of the plan's recordable steps. */
  lemma MovesKeepSound(plan: Plan, stepMax: int, s: RunState, m: Move)
    requires WellFormed(plan) && Sound(plan, s) && Declared(plan, s, m)
    requires Apply(plan, stepMax, s, m).Some?
    ensures Sound(plan, Apply(plan, stepMax, s, m).value)
  {
    match m {
      case Pass => PassIsSound(plan, s);
      case Complete(step) => CompleteIsSound(plan, s);
      case GoBack(to) => GoBackIsSound(plan, stepMax, s, to);
      case _ =>
    }
  }

  /** A pass about to end well has every recordable step in its list. */
  lemma SuccessIsComplete(plan: Plan, stepMax: int, s: RunState)
    requires Sound(plan, s) && Apply(plan, stepMax, s, Stop(Success(false))).Some?
    ensures s.done == Recordables(plan)
  {
    assert plan[..s.i] == plan;
  }

  // ---------- the laws carried over to a whole pass ----------

  /** Steps that fail naming a restart point name their own. */
  ghost predicate KnownRestarts(w: World) {
    forall t: nat, step: StepName, k: nat ::
      var r := w.script(t, step).attempt(k).result;
      r.Raised? && r.error.RestartFrom().Some? ==> RestartPoint(step) == r.error.RestartFrom()
  }

  lemma {:induction false} RewindIsDeclared(cfg: Config, step: StepName, w: World, t: nat, n: nat)
    requires KnownRestarts(w)
    ensures var outcome := Execution(cfg, step, w.script(t, step), n).0;
            outcome.Rewind? ==> RestartPoint(step) == Some(outcome.to)
    decreases MaxAttempts(cfg, step) - n
  {
    var script := w.script(t, step);
    if n < MaxAttempts(cfg, step) && Decide(cfg, step, n + 1, script.attempt(n).result, script.look(n)).None? {
      RewindIsDeclared(cfg, step, w, t, n + 1);
    }
  }

  /** All moves from `s` on go back only to declared restart points. */
  predicate AllDeclared(plan: Plan, stepMax: int, s: RunState, moves: seq<Move>)
    requires Replay(plan, stepMax, s, moves).Some?
    decreases |moves|
  {
    moves == []
    || (Declared(plan, s, moves[0]) && AllDeclared(plan, stepMax, Apply(plan, stepMax, s, moves[0]).value, moves[1..]))
  }

  lemma {:induction false} AllDeclaredJoin(plan: Plan, stepMax: int, s: RunState, a: seq<Move>, b: seq<Move>)
    requires Replay(plan, stepMax, s, a).Some? && AllDeclared(plan, stepMax, s, a)
    requires Replay(plan, stepMax, Replay(plan, stepMax, s, a).value, b).Some?
    requires AllDeclared(plan, stepMax, Replay(plan, stepMax, s, a).value, b)
    ensures Replay(plan, stepMax, s, a + b).Some? && AllDeclared(plan, stepMax, s, a + b)
    decreases |a|
  {
    ReplayJoin(plan, stepMax, s, a, b);
    if a == [] {
      assert a + b == b;
    } else {
      assert (a + b)[0] == a[0] && (a + b)[1..] == a[1..] + b;
      AllDeclaredJoin(plan, stepMax, Apply(plan, stepMax, s, a[0]).value, a[1..], b);
    }
  }

  lemma SettleDeclared(cfg: Config, plan: Plan, w: World, t: nat, s: RunState, outcome: Outcome, attempts: nat)
    requires s.phase.Walking? && s.i < |plan| && !CountsAsDone(s.done, plan[s.i])
    requires outcome.Rewind? ==> RestartPoint(plan[s.i]) == Some(outcome.to)
    ensures var turn := Settle(cfg, plan, w, t, s, outcome, attempts);
            Replay(plan, cfg.stepMax, s, turn.moves).Some? && AllDeclared(plan, cfg.stepMax, s, turn.moves)
  {
    var moves := Settle(cfg, plan, w, t, s, outcome, attempts).moves;
    SettleReplays(cfg, plan, w, t, s, outcome, attempts);
    DeclaredByFirst(plan, cfg.stepMax, s, moves);
  }

  lemma DeclaredByFirst(plan: Plan, stepMax: int, s: RunState, moves: seq<Move>)
    requires Replay(plan, stepMax, s, moves).Some?
    requires |moves| == 1 || (|moves| == 2 && !moves[1].GoBack?)
    requires Declared(plan, s, moves[0])
    ensures AllDeclared(plan, stepMax, s, moves)
  {
  }

  lemma TurnDeclared(cfg: Config, plan: Plan, w: World, t: nat, s: RunState)
    requires KnownRestarts(w) && s.phase.Walking? && s.i < |plan|
    ensures var turn := OneTurn(cfg, plan, w, t, s);
            Replay(plan, cfg.stepMax, s, turn.moves) == Some(turn.state) && AllDeclared(plan, cfg.stepMax, s, turn.moves)
  {
    TurnReplays(cfg, plan, w, t, s);
    if w.skipped(t) || CountsAsDone(s.done, plan[s.i]) {
      DeclaredByFirst(plan, cfg.stepMax, s, OneTurn(cfg, plan, w, t, s).moves);
    } else {
      var step := plan[s.i];
      RewindIsDeclared(cfg, step, w, t, 0);
      var (outcome, attempts) := Execution(cfg, step, w.script(t, step), 0);
      SettleDeclared(cfg, plan, w, t, s, outcome, attempts);
      SettleDeclared(cfg, plan, w, t, s, Done, 0);
      SettleDeclared(cfg, plan, w, t, s, Degraded(ObserveFailed, true), 0);
    }
  }

  lemma {:induction false} RunDeclared(cfg: Config, plan: Plan, w: World, t: nat, s: RunState)
    requires KnownRestarts(w) && s.phase.Walking? && s.i <= |plan|
    ensures var run := RunFrom(cfg, plan, w, t, s);
            Replay(plan, cfg.stepMax, s, run.moves) == Some(run.state) && AllDeclared(plan, cfg.stepMax, s, run.moves)
    decreases cfg.stepMax - s.rewinds, |plan| - s.i
  {
    RunReplays(cfg, plan, w, t, s);
    if s.i < |plan| {
      TurnDeclared(cfg, plan, w, t, s);
      TurnProgress(cfg, plan, w, t, s);
      var turn := OneTurn(cfg, plan, w, t, s);
      if turn.state.phase.Walking? {
        RunDeclared(cfg, plan, w, t + 1, turn.state);
        AllDeclaredJoin(plan, cfg.stepMax, s, turn.moves, RunFrom(cfg, plan, w, t + 1, turn.state).moves);
      }
    }
  }

  lemma {:induction false} ReplayIsSound(plan: Plan, stepMax: int, s: RunState, moves: seq<Move>)
    requires WellFormed(plan) && Sound(plan, s)
    requires Replay(plan, stepMax, s, moves).Some? && AllDeclared(plan, stepMax, s, moves)
    ensures Sound(plan, Replay(plan, stepMax, s, moves).value)
    ensures moves != [] && moves[|moves| - 1] == Stop(Success(false)) ==>
              Replay(plan, stepMax, s, moves).value.done == Recordables(plan)
    decreases |moves|
  {
    if moves != [] {
      MovesKeepSound(plan, stepMax, s, moves[0]);
      if moves == [Stop(Success(false))] {
        SuccessIsComplete(plan, stepMax, s);
        assert moves[1..] == [];
      }
      ReplayIsSound(plan, stepMax, Apply(plan, stepMax, s, moves[0]).value, moves[1..]);
    }
  }

  /**
   * One pass from an initial segment leaves an initial segment, whatever fails on the way, and a pass that
   * ends well without having been skipped has finished every recordable step of its plan.
   */
  lemma {:induction false} PassKeepsSegment(cfg: Config, plan: Plan, w: World, found: Plan)
    requires WellFormed(plan) && IsPrefix(plan, found) && KnownRestarts(w)
    ensures var run := RunJobSpec(cfg, plan, w, found);
            && IsPrefix(plan, run.state.done)
            && (run.state.phase == Over(Success(false)) ==> run.state.done == Recordables(plan))
  {
    StartIsSound(plan, found);
    if !(found != [] && cfg.baseline) {
      var run := RunFrom(cfg, plan, w, 0, Start(found));
      RunDeclared(cfg, plan, w, 0, Start(found));
      ReplayIsSound(plan, cfg.stepMax, Start(found), run.moves);
      if run.state.phase == Over(Success(false)) {
        LastMoveEnds(plan, cfg.stepMax, Start(found), run.moves);
      }
    }
  }

  /** A walk that has ended well ended by its last move. */
  lemma {:induction false} LastMoveEnds(plan: Plan, stepMax: int, s: RunState, moves: seq<Move>)
    requires Replay(plan, stepMax, s, moves).Some? && !s.phase.Over?
    requires Replay(plan, stepMax, s, moves).value.phase == Over(Success(false))
    ensures moves != [] && moves[|moves| - 1] == Stop(Success(false))
    decreases |moves|
  {
    var next := Apply(plan, stepMax, s, moves[0]).value;
    if next.phase.Over? {
      assert moves[1..] == [];
    } else {
      LastMoveEnds(plan, stepMax, next, moves[1..]);
    }
  }

  // ---------- every move has its cause in what the world answers ----------

  /** The step at hand is called: nothing says that it has been done already, or that nobody can tell. */
  predicate IsCalled(cfg: Config, plan: Plan, w: World, t: nat, r: RunState) {
    && r.phase.Walking? && r.i < |plan| && !w.skipped(t) && !CountsAsDone(r.done, plan[r.i])
    && (!cfg.baseline && plan[r.i] == CreateAccount ==> w.judge(t).MustRun?)
  }

  /** What the call comes to, and its last attempt. */
  function CallOutcome(cfg: Config, plan: Plan, w: World, t: nat, r: RunState): Outcome
    requires r.i < |plan|
  {
    Execution(cfg, plan[r.i], w.script(t, plan[r.i]), 0).0
  }

  predicate CallLosesLease(cfg: Config, plan: Plan, w: World, t: nat, r: RunState)
    requires r.i < |plan|
  {
    var script := w.script(t, plan[r.i]);
    var n := Execution(cfg, plan[r.i], script, 0).1;
    n > 0 && script.attempt(n - 1).result.LostLease?
  }

  /** The record attempt after a move that must be recorded. */
  ghost predicate RecordAnswered(w: World, t: nat, m: Move) {
    && (m.Save? <==> w.save(t).Saved?)
    && (m == Stop(LeaseGone) <==> w.save(t).OwnerChanged?)
    && (m == Stop(FailedEnd) <==> w.save(t).StoreFailed?)
  }

  /** How a pass moves on. */
  ghost predicate ForwardExactly(cfg: Config, plan: Plan, w: World, t: nat, r: RunState, m: Move) {
    && (m.Pass? <==> r.i < |plan| && !w.skipped(t) && CountsAsDone(r.done, plan[r.i]))
    && (forall step :: m == Complete(step) <==>
          && r.i < |plan| && step == plan[r.i] && !w.skipped(t) && !CountsAsDone(r.done, step)
          && if !cfg.baseline && step == CreateAccount && !w.judge(t).MustRun? then w.judge(t).WroteEverything?
             else CallOutcome(cfg, plan, w, t, r).Done?)
    && (forall to :: m == GoBack(to) <==>
          && IsCalled(cfg, plan, w, t, r) && CallOutcome(cfg, plan, w, t, r) == Rewind(to)
          && to in plan && r.rewinds < cfg.stepMax - 1)
  }

  /** How a walking pass ends. */
  ghost predicate EndsExactly(cfg: Config, plan: Plan, w: World, t: nat, r: RunState, m: Move) {
    && !m.Save? && m != Stop(Interrupted)
    && (m.GiveUp? ==> m.end == FailedEnd || m.end == GaveUp(RetriesExhausted, false))
    && (m == Stop(Success(false)) <==> r.i >= |plan|)
    && (m == Stop(Success(true)) <==> r.i < |plan| && w.skipped(t))
    && (m == Stop(LeaseGone) <==> IsCalled(cfg, plan, w, t, r) && CallLosesLease(cfg, plan, w, t, r))
    && (m == Stop(FailedEnd) <==> IsCalled(cfg, plan, w, t, r) && CallOutcome(cfg, plan, w, t, r).Failed?)
    && (forall to :: m == GiveUp(to, FailedEnd) <==>
          IsCalled(cfg, plan, w, t, r) && CallOutcome(cfg, plan, w, t, r) == Rewind(to) && to !in plan)
    && (forall to :: m == GiveUp(to, GaveUp(RetriesExhausted, false)) <==>
          && IsCalled(cfg, plan, w, t, r) && CallOutcome(cfg, plan, w, t, r) == Rewind(to)
          && to in plan && r.rewinds >= cfg.stepMax - 1)
    && (forall reason, unknowable :: m == Stop(GaveUp(reason, unknowable)) <==>
          || (IsCalled(cfg, plan, w, t, r) && CallOutcome(cfg, plan, w, t, r) == Degraded(reason, unknowable))
          || (&& r.i < |plan| && !w.skipped(t) && !CountsAsDone(r.done, plan[r.i])
              && !cfg.baseline && plan[r.i] == CreateAccount && w.judge(t).CannotTell?
              && reason == ObserveFailed && unknowable))
  }

  ghost predicate HasItsCause(cfg: Config, plan: Plan, w: World, t: nat, r: RunState, m: Move) {
    match r.phase
    case Saving => RecordAnswered(w, t, m)
    case Walking => ForwardExactly(cfg, plan, w, t, r, m) && EndsExactly(cfg, plan, w, t, r, m)
    case Over(_) => false
  }

  /** A turn ends with a move after which nothing is left to record. */
  function TurnAfter(t: nat, next: RunState): nat {
    if next.phase.Saving? then t else t + 1
  }

  /** The turn the world is asked about after these moves. */
  function TurnAt(plan: Plan, stepMax: int, t: nat, r: RunState, moves: seq<Move>): nat
    requires Replay(plan, stepMax, r, moves).Some?
    decreases |moves|
  {
    if moves == [] then t
    else
      var next := Apply(plan, stepMax, r, moves[0]).value;
      TurnAt(plan, stepMax, TurnAfter(t, next), next, moves[1..])
  }

  /** What may cause a move: the turn, the state before it, the move. */
  type Cause = (nat, RunState, Move) -> bool

  /** The world's answers as causes. */
  ghost function AnswersOf(cfg: Config, plan: Plan, w: World): Cause {
    (t: nat, r: RunState, m: Move) => HasItsCause(cfg, plan, w, t, r, m)
  }

  ghost predicate AllCaused(plan: Plan, stepMax: int, cause: Cause, t: nat, r: RunState, moves: seq<Move>)
    requires Replay(plan, stepMax, r, moves).Some?
    decreases |moves|
  {
    moves == [] ||
    (var next := Apply(plan, stepMax, r, moves[0]).value;
     cause(t, r, moves[0]) && AllCaused(plan, stepMax, cause, TurnAfter(t, next), next, moves[1..]))
  }

  lemma {:induction false} AllCausedJoin(plan: Plan, stepMax: int, cause: Cause, t: nat, r: RunState,
                                         a: seq<Move>, b: seq<Move>)
    requires Replay(plan, stepMax, r, a).Some? && AllCaused(plan, stepMax, cause, t, r, a)
    requires var mid := Replay(plan, stepMax, r, a).value;
             && Replay(plan, stepMax, mid, b).Some?
             && AllCaused(plan, stepMax, cause, TurnAt(plan, stepMax, t, r, a), mid, b)
    ensures Replay(plan, stepMax, r, a + b).Some? && AllCaused(plan, stepMax, cause, t, r, a + b)
    decreases |a|
  {
    ReplayJoin(plan, stepMax, r, a, b);
    if a == [] {
      assert a + b == b;
    } else {
      assert (a + b)[0] == a[0] && (a + b)[1..] == a[1..] + b;
      var next := Apply(plan, stepMax, r, a[0]).value;
      AllCausedJoin(plan, stepMax, cause, TurnAfter(t, next), next, a[1..], b);
    }
  }

  lemma SettleForward(cfg: Config, plan: Plan, w: World, t: nat, r: RunState)
    requires IsCalled(cfg, plan, w, t, r)
    ensures var turn := Settle(cfg, plan, w, t, r, CallOutcome(cfg, plan, w, t, r), 0);
            turn.moves != [] && ForwardExactly(cfg, plan, w, t, r, turn.moves[0])
  {
  }

  lemma SettleEnds(cfg: Config, plan: Plan, w: World, t: nat, r: RunState)
    requires IsCalled(cfg, plan, w, t, r)
    ensures var turn := Settle(cfg, plan, w, t, r, CallOutcome(cfg, plan, w, t, r), 0);
            turn.moves != [] && EndsExactly(cfg, plan, w, t, r, turn.moves[0])
  {
    LeaseLostByItsLast(cfg, plan[r.i], w.script(t, plan[r.i]));
  }

  lemma SettleRecords(cfg: Config, plan: Plan, w: World, t: nat, r: RunState, outcome: Outcome, attempts: nat)
    requires r.i < |plan|
    ensures var moves := Settle(cfg, plan, w, t, r, outcome, attempts).moves;
            && 1 <= |moves| <= 2 && moves == Settle(cfg, plan, w, t, r, outcome, 0).moves
            && (|moves| == 2 ==> RecordAnswered(w, t, moves[1]) && (moves[0].Complete? || moves[0].GoBack?))
            && (|moves| == 1 ==> !moves[0].GoBack? && (moves[0].Complete? ==> !Recordable(moves[0].step)))
  {
  }

  /** A turn's one or two moves. */
  lemma TurnMovesCaused(plan: Plan, stepMax: int, cause: Cause, t: nat, r: RunState, moves: seq<Move>)
    requires Replay(plan, stepMax, r, moves).Some? && 1 <= |moves| <= 2 && cause(t, r, moves[0])
    requires var mid := Apply(plan, stepMax, r, moves[0]).value;
             (|moves| == 2 <==> mid.phase.Saving?) && (|moves| == 2 ==> cause(t, mid, moves[1]))
    ensures AllCaused(plan, stepMax, cause, t, r, moves)
    ensures Replay(plan, stepMax, r, moves).value.phase.Walking? ==> TurnAt(plan, stepMax, t, r, moves) == t + 1
  {
    var mid := Apply(plan, stepMax, r, moves[0]).value;
    if |moves| == 2 {
      assert moves[1..] == [moves[1]] && [moves[1]][1..] == [];
      var last := Apply(plan, stepMax, mid, moves[1]).value;
      assert TurnAt(plan, stepMax, t, mid, moves[1..]) == TurnAt(plan, stepMax, TurnAfter(t, last), last, []);
      assert AllCaused(plan, stepMax, cause, TurnAfter(t, last), last, []);
    } else {
      assert moves[1..] == [];
    }
  }

  lemma FirstMoveIsCaused(cfg: Config, plan: Plan, w: World, t: nat, r: RunState)
    requires r.phase.Walking? && r.i < |plan|
    ensures var turn := OneTurn(cfg, plan, w, t, r);
            && Replay(plan, cfg.stepMax, r, turn.moves) == Some(turn.state)
            && 1 <= |turn.moves| <= 2 && HasItsCause(cfg, plan, w, t, r, turn.moves[0])
            && (|turn.moves| == 2 ==> RecordAnswered(w, t, turn.moves[1]))
            && (|turn.moves| == 2 <==> Apply(plan, cfg.stepMax, r, turn.moves[0]).value.phase.Saving?)
  {
    TurnReplays(cfg, plan, w, t, r);
    if w.skipped(t) || CountsAsDone(r.done, plan[r.i]) {
    } else if !IsCalled(cfg, plan, w, t, r) {
      SettleRecords(cfg, plan, w, t, r, Done, 0);
    } else {
      var (outcome, attempts) := Execution(cfg, plan[r.i], w.script(t, plan[r.i]), 0);
      SettleRecords(cfg, plan, w, t, r, outcome, attempts);
      SettleForward(cfg, plan, w, t, r);
      SettleEnds(cfg, plan, w, t, r);
    }
  }

  lemma TurnIsCaused(cfg: Config, plan: Plan, w: World, t: nat, r: RunState)
    requires r.phase.Walking? && r.i < |plan|
    ensures var turn := OneTurn(cfg, plan, w, t, r);
            && Replay(plan, cfg.stepMax, r, turn.moves) == Some(turn.state)
            && AllCaused(plan, cfg.stepMax, AnswersOf(cfg, plan, w), t, r, turn.moves)
            && (turn.state.phase.Walking? ==> TurnAt(plan, cfg.stepMax, t, r, turn.moves) == t + 1)
  {
    FirstMoveIsCaused(cfg, plan, w, t, r);
    TurnMovesCaused(plan, cfg.stepMax, AnswersOf(cfg, plan, w), t, r, OneTurn(cfg, plan, w, t, r).moves);
  }

  lemma {:induction false} RunIsCaused(cfg: Config, plan: Plan, w: World, t: nat, r: RunState)
    requires r.phase.Walking? && r.i <= |plan|
    ensures var run := RunFrom(cfg, plan, w, t, r);
            && Replay(plan, cfg.stepMax, r, run.moves) == Some(run.state)
            && AllCaused(plan, cfg.stepMax, AnswersOf(cfg, plan, w), t, r, run.moves)
    decreases cfg.stepMax - r.rewinds, |plan| - r.i
  {
    RunReplays(cfg, plan, w, t, r);
    if r.i == |plan| {
      assert [Stop(Success(false))][1..] == [];
    } else {
      TurnIsCaused(cfg, plan, w, t, r);
      TurnProgress(cfg, plan, w, t, r);
      var turn := OneTurn(cfg, plan, w, t, r);
      if turn.state.phase.Walking? {
        RunIsCaused(cfg, plan, w, t + 1, turn.state);
        AllCausedJoin(plan, cfg.stepMax, AnswersOf(cfg, plan, w), t, r, turn.moves,
                      RunFrom(cfg, plan, w, t + 1, turn.state).moves);
      }
    }
  }

  /** The cause of any one move of a sequence all of which have one. */
  lemma {:induction false} CausedAt(plan: Plan, stepMax: int, cause: Cause, t: nat, r: RunState, moves: seq<Move>, k: nat)
    requires Replay(plan, stepMax, r, moves).Some? && AllCaused(plan, stepMax, cause, t, r, moves) && k < |moves|
    ensures Replay(plan, stepMax, r, moves[..k]).Some?
    ensures var s := Replay(plan, stepMax, r, moves[..k]).value;
            && cause(TurnAt(plan, stepMax, t, r, moves[..k]), s, moves[k])
            && Replay(plan, stepMax, r, moves) == Replay(plan, stepMax, s, moves[k..])
    decreases |moves|
  {
    if k > 0 {
      var next := Apply(plan, stepMax, r, moves[0]).value;
      CausedAt(plan, stepMax, cause, TurnAfter(t, next), next, moves[1..], k - 1);
      assert moves[1..][..k - 1] == moves[..k][1..] && moves[1..][k - 1..] == moves[k..];
    }
  }

  /**
   * Every move of a pass has its cause: with the state before it and the turn of the world it belongs to, a
   * record is answered as `RecordAnswered` says, a step moves on as `ForwardExactly` says and the pass ends as
   * `EndsExactly` says.
   */
  lemma EveryMoveHasItsCause(cfg: Config, plan: Plan, w: World, found: Plan, k: nat)
    requires !(found != [] && cfg.baseline) && k < |RunJobSpec(cfg, plan, w, found).moves|
    ensures var moves := RunJobSpec(cfg, plan, w, found).moves;
            var before := Replay(plan, cfg.stepMax, Start(found), moves[..k]);
            before.Some?
            && HasItsCause(cfg, plan, w, TurnAt(plan, cfg.stepMax, 0, Start(found), moves[..k]), before.value, moves[k])
  {
    RunIsCaused(cfg, plan, w, 0, Start(found));
    CausedAt(plan, cfg.stepMax, AnswersOf(cfg, plan, w), 0, Start(found), RunJobSpec(cfg, plan, w, found).moves, k);
  }

  /** The end that the last move brings, in terms of the state before it and the answers of its turn. */
  ghost predicate EndFits(cfg: Config, plan: Plan, w: World, t: nat, r: RunState, phase: Phase) {
    && !r.phase.Over?
    && (phase == Over(LeaseGone) <==>
          if r.phase.Saving? then w.save(t).OwnerChanged?
          else IsCalled(cfg, plan, w, t, r) && CallLosesLease(cfg, plan, w, t, r))
    && (phase == Over(FailedEnd) <==>
          if r.phase.Saving? then w.save(t).StoreFailed?
          else
            && IsCalled(cfg, plan, w, t, r)
            && (var outcome := CallOutcome(cfg, plan, w, t, r);
                outcome.Failed? || (outcome.Rewind? && outcome.to !in plan)))
    && (phase == Over(Success(true)) <==> r.phase.Walking? && r.i < |plan| && w.skipped(t))
    && (phase == Over(Success(false)) <==> r.phase.Walking? && r.i >= |plan|)
  }

  ghost predicate GaveUpFits(cfg: Config, plan: Plan, w: World, t: nat, r: RunState, phase: Phase) {
    forall reason, unknowable :: phase == Over(GaveUp(reason, unknowable)) <==>
      || (&& IsCalled(cfg, plan, w, t, r)
          && (var outcome := CallOutcome(cfg, plan, w, t, r);
              || outcome == Degraded(reason, unknowable)
              || (&& outcome.Rewind? && outcome.to in plan && r.rewinds >= cfg.stepMax - 1
                  && reason == RetriesExhausted && !unknowable)))
      || (&& r.phase.Walking? && r.i < |plan| && !w.skipped(t) && !CountsAsDone(r.done, plan[r.i])
          && !cfg.baseline && plan[r.i] == CreateAccount && w.judge(t).CannotTell?
          && reason == ObserveFailed && unknowable)
  }

  /** A move that ends the pass carries the end. */
  lemma EndOfMove(plan: Plan, stepMax: int, r: RunState, m: Move, end: End)
    requires Apply(plan, stepMax, r, m).Some? && !r.phase.Over?
    ensures Apply(plan, stepMax, r, m).value.phase == Over(end) <==> m == Stop(end) || (m.GiveUp? && m.end == end)
  {
  }

  lemma EndFitsLastMove(cfg: Config, plan: Plan, w: World, t: nat, r: RunState, m: Move, phase: Phase)
    requires HasItsCause(cfg, plan, w, t, r, m) && phase.Over?
    requires Apply(plan, cfg.stepMax, r, m).Some? && Apply(plan, cfg.stepMax, r, m).value.phase == phase
    ensures EndFits(cfg, plan, w, t, r, phase)
  {
    EndOfMove(plan, cfg.stepMax, r, m, phase.end);
    if m.GiveUp? { assert m == GiveUp(m.to, m.end); }
    if IsCalled(cfg, plan, w, t, r) {
      var outcome := CallOutcome(cfg, plan, w, t, r);
      if outcome.Rewind? && outcome.to !in plan { assert m == GiveUp(outcome.to, FailedEnd); }
    }
  }

  lemma GaveUpFitsLastMove(cfg: Config, plan: Plan, w: World, t: nat, r: RunState, m: Move, phase: Phase)
    requires HasItsCause(cfg, plan, w, t, r, m) && phase.Over?
    requires Apply(plan, cfg.stepMax, r, m).Some? && Apply(plan, cfg.stepMax, r, m).value.phase == phase
    ensures GaveUpFits(cfg, plan, w, t, r, phase)
  {
    EndOfMove(plan, cfg.stepMax, r, m, phase.end);
    if m.GiveUp? { assert m == GiveUp(m.to, m.end); }
    if IsCalled(cfg, plan, w, t, r) {
      var outcome := CallOutcome(cfg, plan, w, t, r);
      if outcome.Rewind? && outcome.to in plan && r.rewinds >= cfg.stepMax - 1 {
        assert m == GiveUp(outcome.to, GaveUp(RetriesExhausted, false));
      }
    }
  }

  /**
   * A pass ends as the last answer it got demands. It stands down if and only if a record was answered by another
   * owner or an attempt met the lost lease; it fails if and only if a record failed, a call failed, or a step
   * wanted to go back to where the plan does not go; it gives up, skips the rest or succeeds only where it must.
   */
  lemma PassEndsByItsLastAnswer(cfg: Config, plan: Plan, w: World, found: Plan)
    requires !(found != [] && cfg.baseline)
    ensures var run := RunJobSpec(cfg, plan, w, found);
            && run.moves != []
            && var before := run.moves[..|run.moves| - 1];
               && Replay(plan, cfg.stepMax, Start(found), before).Some?
               && var r, t := Replay(plan, cfg.stepMax, Start(found), before).value,
                              TurnAt(plan, cfg.stepMax, 0, Start(found), before);
                  EndFits(cfg, plan, w, t, r, run.state.phase) && GaveUpFits(cfg, plan, w, t, r, run.state.phase)
  {
    var run := RunJobSpec(cfg, plan, w, found);
    RunEnds(cfg, plan, w, 0, Start(found));
    RunIsCaused(cfg, plan, w, 0, Start(found));
    var k := |run.moves| - 1;
    CausedAt(plan, cfg.stepMax, AnswersOf(cfg, plan, w), 0, Start(found), run.moves, k);
    assert run.moves[k..] == [run.moves[k]] && [run.moves[k]][1..] == [];
    var r := Replay(plan, cfg.stepMax, Start(found), run.moves[..k]).value;
    var t := TurnAt(plan, cfg.stepMax, 0, Start(found), run.moves[..k]);
    EndFitsLastMove(cfg, plan, w, t, r, run.moves[k], run.state.phase);
    GaveUpFitsLastMove(cfg, plan, w, t, r, run.moves[k], run.state.phase);
  }

  lemma {:induction false} RunEnds(cfg: Config, plan: Plan, w: World, t: nat, r: RunState)
    requires r.phase.Walking? && r.i <= |plan|
    ensures RunFrom(cfg, plan, w, t, r).moves != [] && RunFrom(cfg, plan, w, t, r).state.phase.Over?
    decreases cfg.stepMax - r.rewinds, |plan| - r.i
  {
    if r.i < |plan| {
      FirstMoveIsCaused(cfg, plan, w, t, r);
      TurnProgress(cfg, plan, w, t, r);
      var turn := OneTurn(cfg, plan, w, t, r);
      if turn.state.phase.Walking? { RunEnds(cfg, plan, w, t + 1, turn.state); }
    }
  }
}
