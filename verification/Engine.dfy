/** The retry policy around one step: run it, look at unknown results before running it again, or give up. */
module Engine {
  import opened Prelude
  import opened Plans

  /** The attempt limits are read from the environment, so they may be any integer. */
  datatype Config = Config(stepMax: int, verifyMax: int, baseline: bool)

  datatype StepError =
    | StepFailed(unknown: bool, status: int, retry: bool, restartFrom: Option<StepName>)
    | OtherError(unknown: bool)
  {
    function RestartFrom(): Option<StepName> {
      if StepFailed? then restartFrom else None
    }
    predicate Final() {
      StepFailed? && !retry
    }
    /** A rejected request: running it again gives the same answer. */
    predicate Rejected() {
      StepFailed? && !unknown && 400 <= status < 500
    }
  }

  datatype AttemptResult = Returned | LostLease | Raised(error: StepError)

  /** `applies`: the attempt leaves the effect its step is for in place. */
  datatype Attempt = Attempt(result: AttemptResult, applies: bool)

  datatype Observation = Seen | NotSeen | LookupFailed

  /** How each attempt of one call behaves, and what a lookup after it would report. */
  datatype Script = Script(attempt: nat -> Attempt, look: nat -> Observation)

  datatype Reason = ObserveFailed | UnresumableUnknown | RetriesExhausted

  datatype Outcome =
    | Done
    | LeaseLost
    | Rewind(to: StepName)
    | Degraded(reason: Reason, unknowable: bool)
    | Failed

  function MaxAttempts(cfg: Config, step: StepName): int {
    if cfg.baseline then 1
    else if step in VERIFY_STEPS then cfg.verifyMax
    else cfg.stepMax
  }

  predicate MayRerunBlindly(step: StepName) {
    step in RERUN_SAFE || step in VERIFY_STEPS
  }

  /** What the engine decides after the `n`-th attempt (counted from 1); None means: try again. */
  function Decide(cfg: Config, step: StepName, n: nat, result: AttemptResult, seen: Observation): Option<Outcome> {
    match result
    case Returned => Some(Done)
    case LostLease => Some(LeaseLost)
    case Raised(e) =>
      if cfg.baseline || e.Final() then Some(Failed)
      else if e.RestartFrom().Some? then Some(Rewind(e.RestartFrom().value))
      else if e.unknown && step in OBSERVED && seen.Seen? then Some(Done)
      else if e.unknown && step in OBSERVED && seen.LookupFailed? then Some(Degraded(ObserveFailed, true))
      else if e.unknown && step !in OBSERVED && !MayRerunBlindly(step) then Some(Degraded(UnresumableUnknown, true))
      else if e.Rejected() then Some(Failed)
      else if n == MaxAttempts(cfg, step) then Some(Degraded(RetriesExhausted, e.unknown))
      else None
  }

  /** The outcome of the call once `n` attempts were made without a decision, and the attempts made in all. */
  function Execution(cfg: Config, step: StepName, s: Script, n: nat): (r: (Outcome, nat))
    ensures n <= r.1 <= Max(n, MaxAttempts(cfg, step))
    decreases MaxAttempts(cfg, step) - n
  {
    if MaxAttempts(cfg, step) <= n then (Done, n)
    else
      match Decide(cfg, step, n + 1, s.attempt(n).result, s.look(n))
      case Some(outcome) => (outcome, n + 1)
      case None => Execution(cfg, step, s, n + 1)
  }

  method ExecuteStep(cfg: Config, step: StepName, s: Script) returns (outcome: Outcome, attempts: nat)
    ensures (outcome, attempts) == Execution(cfg, step, s, 0)
  {
    var limit := MaxAttempts(cfg, step);
    attempts := 0;
    while attempts < limit
      invariant Execution(cfg, step, s, 0) == Execution(cfg, step, s, attempts)
    {
      var attempt := s.attempt(attempts);
      var seen := s.look(attempts);
      attempts := attempts + 1;
      match attempt.result {
        case Returned => return Done, attempts;
        case LostLease => return LeaseLost, attempts;
        case Raised(error) =>
          if cfg.baseline || error.Final() {
            return Failed, attempts;
          }
          if error.RestartFrom().Some? {
            return Rewind(error.RestartFrom().value), attempts;
          }
          if error.unknown {
            if step in OBSERVED {
              if seen.Seen? { return Done, attempts; }
              if seen.LookupFailed? { return Degraded(ObserveFailed, true), attempts; }
            } else if step !in RERUN_SAFE && step !in VERIFY_STEPS {
              return Degraded(UnresumableUnknown, true), attempts;
            }
          }
          if error.Rejected() {
            return Failed, attempts;
          }
          if attempts == limit {
            return Degraded(RetriesExhausted, error.unknown), attempts;
          }
      }
    }
    outcome := Done;
  }

  // ---------- the effect of a call ----------

  /** How many of the first `n` attempts applied the effect. */
  function Applications(s: Script, n: nat): nat {
    if n == 0 then 0 else Applications(s, n - 1) + (if s.attempt(n - 1).applies then 1 else 0)
  }

  /**
   * The promises the engine builds on: a return means the effect was applied, a definite failure has no
   * effect, a failure that names a restart point undid its own, and a lookup that answers tells the truth.
   */
  ghost predicate Honest(s: Script) {
    forall k: nat ::
      && (match s.attempt(k).result
          case Returned => s.attempt(k).applies
          case LostLease => true
          case Raised(e) => e.RestartFrom().Some? || !e.unknown ==> !s.attempt(k).applies)
      && (s.look(k).Seen? ==> Applications(s, k + 1) > 0)
      && (s.look(k).NotSeen? ==> Applications(s, k + 1) == 0)
  }

  /**
   * A step with an observer: one call applies the effect at most once, whatever is lost on the way, and it
   * returns normally only with the effect in place.
   */
  lemma {:induction false} AppliesAtMostOnce(cfg: Config, step: StepName, s: Script, n: nat)
    requires Honest(s) && step in OBSERVED
    requires n < MaxAttempts(cfg, step) && Applications(s, n) == 0
    ensures var (outcome, attempts) := Execution(cfg, step, s, n);
            Applications(s, attempts) <= 1 && (outcome.Done? ==> Applications(s, attempts) == 1)
    decreases MaxAttempts(cfg, step) - n
  {
    if Decide(cfg, step, n + 1, s.attempt(n).result, s.look(n)).None? {
      AppliesAtMostOnce(cfg, step, s, n + 1);
    }
  }

  /** Whether an attempt ended without anyone knowing if it took effect. */
  predicate UnknownResult(r: AttemptResult) {
    r.Raised? && r.error.unknown
  }

  /** Of all the steps of any job only the flush ends the job when nobody knows whether it took effect. */
  lemma OnlyTheFlushIsUnresumable(step: StepName)
    ensures step !in OBSERVED && !MayRerunBlindly(step) <==> step == TriggerNasGssFlush
  {
  }

  /** A step with neither an observer nor a rerun-safe mark is never run again after an unknown result. */
  lemma {:induction false} NeverRerunAfterUnknown(cfg: Config, step: StepName, s: Script, n: nat)
    requires step !in OBSERVED && !MayRerunBlindly(step)
    ensures var (outcome, attempts) := Execution(cfg, step, s, n);
            forall k :: n <= k < attempts - 1 ==> !UnknownResult(s.attempt(k).result)
    decreases MaxAttempts(cfg, step) - n
  {
    if n < MaxAttempts(cfg, step) && Decide(cfg, step, n + 1, s.attempt(n).result, s.look(n)).None? {
      NeverRerunAfterUnknown(cfg, step, s, n + 1);
    }
  }

  /**
   * A normal return after `attempts` attempts rests on the last of them: it returned, or its unknown result
   * was looked up and seen. With no attempt allowed the call returns normally without running anything.
   */
  lemma {:induction false} DoneMeansRan(cfg: Config, step: StepName, s: Script)
    ensures var (outcome, attempts) := Execution(cfg, step, s, 0);
            && (attempts == 0 <==> MaxAttempts(cfg, step) <= 0)
            && (attempts == 0 ==> outcome.Done?)
            && (outcome.Done? && attempts > 0 ==>
                  var last := s.attempt(attempts - 1);
                  last.result.Returned? || (UnknownResult(last.result) && step in OBSERVED && s.look(attempts - 1).Seen?))
  {
    DoneMeansRanFrom(cfg, step, s, 0);
  }

  lemma {:induction false} DoneMeansRanFrom(cfg: Config, step: StepName, s: Script, n: nat)
    requires n < MaxAttempts(cfg, step) || n == 0
    ensures var (outcome, attempts) := Execution(cfg, step, s, n);
            && (attempts == n <==> MaxAttempts(cfg, step) <= n)
            && (attempts == n ==> outcome.Done?)
            && (outcome.Done? && attempts > n ==>
                  var last := s.attempt(attempts - 1);
                  last.result.Returned? || (UnknownResult(last.result) && step in OBSERVED && s.look(attempts - 1).Seen?))
    decreases MaxAttempts(cfg, step) - n
  {
    if n < MaxAttempts(cfg, step) && Decide(cfg, step, n + 1, s.attempt(n).result, s.look(n)).None? {
      DoneMeansRanFrom(cfg, step, s, n + 1);
    }
  }

  // ---------- every outcome, read off the script ----------

  /** The error is one that the engine answers by looking, or by running the step once more. */
  predicate Ordinary(e: StepError) {
    match e
    case StepFailed(unknown, status, retry, restartFrom) =>
      retry && restartFrom.None? && (unknown || !(400 <= status < 500))
    case OtherError(_) => true
  }

  /** Running the step again can do no harm: what happened is known, or was looked up, or does not matter. */
  predicate HarmlessAgain(step: StepName, e: StepError, seen: Observation) {
    e.unknown ==> if step in OBSERVED then seen.NotSeen? else step in RERUN_SAFE || step in VERIFY_STEPS
  }

  /** The attempt is followed by another one unless it is the last allowed. */
  predicate TriedAgain(step: StepName, r: AttemptResult, seen: Observation) {
    r.Raised? && Ordinary(r.error) && HarmlessAgain(step, r.error, seen)
  }

  /** It returns normally after an attempt that returned or was seen to have taken effect. */
  predicate DoneExactly(step: StepName, outcome: Outcome, last: AttemptResult, seen: Observation) {
    && (outcome.Done? <==>
          || last.Returned?
          || (last.Raised? && Ordinary(last.error) && last.error.unknown && step in OBSERVED && seen.Seen?))
    && (outcome.LeaseLost? <==> last.LostLease?)
  }

  /** It fails on what is not to be retried and on rejected requests, and goes back where the error says so. */
  ghost predicate FailedExactly(outcome: Outcome, last: AttemptResult) {
    && (outcome.Failed? <==>
          last.Raised? && last.error.StepFailed? &&
          (!last.error.retry
           || (last.error.restartFrom.None? && !last.error.unknown && 400 <= last.error.status < 500)))
    && (forall to :: outcome == Rewind(to) <==>
          last.Raised? && last.error.StepFailed? && last.error.retry && last.error.restartFrom == Some(to))
  }

  /** It hands over to a person when it cannot tell what happened. */
  ghost predicate UnclearExactly(step: StepName, outcome: Outcome, last: AttemptResult, seen: Observation) {
    && (forall unknowable :: outcome == Degraded(ObserveFailed, unknowable) <==>
          unknowable && last.Raised? && Ordinary(last.error) && last.error.unknown && step in OBSERVED && seen.LookupFailed?)
    && (forall unknowable :: outcome == Degraded(UnresumableUnknown, unknowable) <==>
          && unknowable && last.Raised? && Ordinary(last.error) && last.error.unknown
          && step !in OBSERVED && step !in RERUN_SAFE && step !in VERIFY_STEPS)
  }

  /** It gives up when it would try again but has tried as often as it may. */
  ghost predicate ExhaustedExactly(step: StepName, outcome: Outcome, last: AttemptResult, seen: Observation, n: nat, limit: int) {
    && (forall unknowable :: outcome == Degraded(RetriesExhausted, unknowable) <==>
          TriedAgain(step, last, seen) && n == limit && unknowable == last.error.unknown)
    && (TriedAgain(step, last, seen) ==> n == limit)
  }

  /** What a call outside the baseline comes to, said of its last attempt, the `n`-th of at most `limit`. */
  ghost predicate ComesTo(step: StepName, outcome: Outcome, last: AttemptResult, seen: Observation, n: nat, limit: int) {
    && DoneExactly(step, outcome, last, seen)
    && FailedExactly(outcome, last)
    && UnclearExactly(step, outcome, last, seen)
    && ExhaustedExactly(step, outcome, last, seen, n, limit)
  }

  lemma DecidesDone(cfg: Config, step: StepName, n: nat, last: AttemptResult, seen: Observation, outcome: Outcome)
    requires !cfg.baseline && Decide(cfg, step, n, last, seen) == Some(outcome)
    ensures DoneExactly(step, outcome, last, seen)
  {
  }

  lemma DecidesFailed(cfg: Config, step: StepName, n: nat, last: AttemptResult, seen: Observation, outcome: Outcome)
    requires !cfg.baseline && Decide(cfg, step, n, last, seen) == Some(outcome)
    ensures FailedExactly(outcome, last)
  {
  }

  lemma DecidesUnclear(cfg: Config, step: StepName, n: nat, last: AttemptResult, seen: Observation, outcome: Outcome)
    requires !cfg.baseline && Decide(cfg, step, n, last, seen) == Some(outcome)
    ensures UnclearExactly(step, outcome, last, seen)
  {
  }

  lemma DecidesExhausted(cfg: Config, step: StepName, n: nat, last: AttemptResult, seen: Observation, outcome: Outcome)
    requires !cfg.baseline && Decide(cfg, step, n, last, seen) == Some(outcome)
    ensures ExhaustedExactly(step, outcome, last, seen, n, if step in VERIFY_STEPS then cfg.verifyMax else cfg.stepMax)
  {
    DecidesToGoOn(cfg, step, n, last, seen);
  }

  lemma DecidesToGoOn(cfg: Config, step: StepName, n: nat, last: AttemptResult, seen: Observation)
    requires !cfg.baseline
    ensures var limit := if step in VERIFY_STEPS then cfg.verifyMax else cfg.stepMax;
            Decide(cfg, step, n, last, seen).None? <==> TriedAgain(step, last, seen) && n != limit
  {
  }

  lemma DecisionFits(cfg: Config, step: StepName, n: nat, last: AttemptResult, seen: Observation)
    requires !cfg.baseline
    ensures var limit := if step in VERIFY_STEPS then cfg.verifyMax else cfg.stepMax;
            match Decide(cfg, step, n, last, seen)
            case Some(outcome) => ComesTo(step, outcome, last, seen, n, limit)
            case None => TriedAgain(step, last, seen) && n != limit
  {
    DecidesToGoOn(cfg, step, n, last, seen);
    match Decide(cfg, step, n, last, seen) {
      case Some(outcome) =>
        DecidesDone(cfg, step, n, last, seen, outcome);
        DecidesFailed(cfg, step, n, last, seen, outcome);
        DecidesUnclear(cfg, step, n, last, seen, outcome);
        DecidesExhausted(cfg, step, n, last, seen, outcome);
      case None =>
    }
  }

  ghost predicate EndsByItsLast(cfg: Config, step: StepName, s: Script, outcome: Outcome, n: nat) {
    var limit := if step in VERIFY_STEPS then cfg.verifyMax else cfg.stepMax;
    && 0 < n <= limit
    && ComesTo(step, outcome, s.attempt(n - 1).result, s.look(n - 1), n, limit)
    && (forall k :: 0 <= k < n - 1 ==> TriedAgain(step, s.attempt(k).result, s.look(k)))
  }

  lemma {:induction false} EndsByItsLastFrom(cfg: Config, step: StepName, s: Script, k: nat)
    requires !cfg.baseline && k < MaxAttempts(cfg, step)
    requires forall i :: 0 <= i < k ==> TriedAgain(step, s.attempt(i).result, s.look(i))
    ensures EndsByItsLast(cfg, step, s, Execution(cfg, step, s, k).0, Execution(cfg, step, s, k).1)
    decreases MaxAttempts(cfg, step) - k
  {
    DecisionFits(cfg, step, k + 1, s.attempt(k).result, s.look(k));
    if Decide(cfg, step, k + 1, s.attempt(k).result, s.look(k)).None? {
      EndsByItsLastFrom(cfg, step, s, k + 1);
    }
  }

  /**
   * A call outside the baseline runs the step until an attempt settles it or the limit is reached. It fails
   * exactly on an error that is not to be retried or on a rejected request, goes back exactly where a retryable
   * error names a restart point, and tries again after everything else that does no harm.
   */
  lemma CallEndsByItsLast(cfg: Config, step: StepName, s: Script)
    requires !cfg.baseline
    ensures var limit := if step in VERIFY_STEPS then cfg.verifyMax else cfg.stepMax;
            var (outcome, n) := Execution(cfg, step, s, 0);
            if limit <= 0 then outcome.Done? && n == 0 else EndsByItsLast(cfg, step, s, outcome, n)
  {
    if MaxAttempts(cfg, step) > 0 {
      EndsByItsLastFrom(cfg, step, s, 0);
    }
  }

  /** In any mode a call reports a lost lease exactly when its last attempt met one. */
  lemma {:induction false} LeaseLostByItsLast(cfg: Config, step: StepName, s: Script)
    ensures var (outcome, n) := Execution(cfg, step, s, 0);
            outcome.LeaseLost? <==> n > 0 && s.attempt(n - 1).result.LostLease?
  {
    if cfg.baseline {
      BaselineRunsOnce(cfg, step, s);
    } else {
      CallEndsByItsLast(cfg, step, s);
    }
  }

  /** The baseline runs a step once and hands on whatever happened, without looking or retrying. */
  lemma BaselineRunsOnce(cfg: Config, step: StepName, s: Script)
    requires cfg.baseline
    ensures Execution(cfg, step, s, 0) ==
            ((match s.attempt(0).result case Returned => Done case LostLease => LeaseLost case Raised(_) => Failed), 1)
  {
  }
}
