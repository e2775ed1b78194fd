/**
 * The counts behind every reported rate: over how many trials it is taken, how many of them count, and how many
 * could not be decided. Verdicts that are unknown are never folded into a success or a failure.
 */
module Metrics {
  import opened Prelude

  datatype Verdict = Pass | Fail | Unknown

  /** A trial reduced to what the rates look at; `bystander` is None when there was none to protect. */
  datatype Trial = Trial(
    revoke: bool,
    declared: bool,
    atDeclaration: Verdict,
    atHorizon: Verdict,
    samples: seq<Verdict>,
    bystander: Option<Verdict>,
    duplicate: Verdict,
    environment: string)

  datatype Metric =
    | IncorrectCompletion
    | UnknownAtDeclaration
    | VerifiedCompletion
    | SafeRecovery
    | ResidualAccess
    | DuplicateResource
    | ProtectionViolation

  /** The three numbers of a rate: how many count, out of how many, and how many are undecided. */
  datatype Part = K | N | Undecided

  datatype Counts = Counts(k: int, n: int, unknown: int)

  // ---------- what one trial adds to a rate ----------

  /** One of the verdicts a trial's recovery has to pass is `v`; without a bystander there is none to protect. */
  predicate AmongRecovery(t: Trial, v: Verdict) {
    t.atHorizon == v || t.bystander == Some(v) || t.duplicate == v
  }

  /** `v` is among the verdicts on whether access remained after a revocation. */
  predicate AmongAccess(t: Trial, v: Verdict) {
    t.atHorizon == v || v in t.samples
  }

  /** A trial that is among those a rate is taken over, may count, and may be undecided. */
  function One(part: Part, among: bool, counts: bool, open: bool): int {
    match part
    case K => if among && counts then 1 else 0
    case N => if among then 1 else 0
    case Undecided => if among && open then 1 else 0
  }

  function Share(m: Metric, part: Part, t: Trial): int {
    match m
    case IncorrectCompletion => One(part, t.declared, t.atDeclaration.Fail?, t.atDeclaration.Unknown?)
    case UnknownAtDeclaration => One(part, t.declared, t.atDeclaration.Unknown?, false)
    case VerifiedCompletion => One(part, true, t.declared && t.atHorizon.Pass?, t.declared && t.atHorizon.Unknown?)
    case SafeRecovery =>
      var eligible := t.declared && !t.atDeclaration.Fail? && !AmongRecovery(t, Fail);
      One(part, true, eligible && !AmongRecovery(t, Unknown), eligible && AmongRecovery(t, Unknown))
    case ResidualAccess =>
      One(part, t.declared && t.revoke, AmongAccess(t, Fail), !AmongAccess(t, Fail) && AmongAccess(t, Unknown))
    case DuplicateResource => One(part, true, t.duplicate.Fail?, t.duplicate.Unknown?)
    case ProtectionViolation => One(part, t.bystander.Some?, t.bystander == Some(Fail), t.bystander == Some(Unknown))
  }

  /** One number of a rate over the first `i` trials of a list. */
  function RateTo(m: Metric, part: Part, trials: seq<Trial>, i: nat): int
    requires i <= |trials|
  {
    if i == 0 then 0 else RateTo(m, part, trials, i - 1) + Share(m, part, trials[i - 1])
  }

  function Rate(m: Metric, part: Part, trials: seq<Trial>): int {
    RateTo(m, part, trials, |trials|)
  }

  function CountsTo(m: Metric, trials: seq<Trial>, i: nat): Counts
    requires i <= |trials|
  {
    Counts(RateTo(m, K, trials, i), RateTo(m, N, trials, i), RateTo(m, Undecided, trials, i))
  }

  function CountsOf(m: Metric, trials: seq<Trial>): Counts {
    CountsTo(m, trials, |trials|)
  }

  lemma {:induction false} RateOfPrefix(m: Metric, part: Part, trials: seq<Trial>, more: seq<Trial>, i: nat)
    requires i <= |trials|
    ensures RateTo(m, part, trials + more, i) == RateTo(m, part, trials, i)
  {
    if i > 0 {
      RateOfPrefix(m, part, trials, more, i - 1);
      assert (trials + more)[i - 1] == trials[i - 1];
    }
  }

  lemma RateAppend(m: Metric, part: Part, trials: seq<Trial>, t: Trial)
    ensures Rate(m, part, trials + [t]) == Rate(m, part, trials) + Share(m, part, t)
  {
    RateOfPrefix(m, part, trials, [t], |trials|);
    assert (trials + [t])[|trials|] == t;
  }

  // ---------- what the numbers count ----------

  /** The number of trials with a property. */
  function HowMany(trials: seq<Trial>, property: Trial -> bool): nat {
    if trials == [] then 0
    else HowMany(trials[..|trials| - 1], property) + if property(trials[|trials| - 1]) then 1 else 0
  }

  lemma {:induction false} CountUpTo(m: Metric, part: Part, trials: seq<Trial>, i: nat, property: Trial -> bool)
    requires i <= |trials| && forall t :: Share(m, part, t) == if property(t) then 1 else 0
    ensures RateTo(m, part, trials, i) == HowMany(trials[..i], property)
  {
    if i > 0 {
      CountUpTo(m, part, trials, i - 1, property);
      assert trials[..i][..i - 1] == trials[..i - 1];
    }
  }

  lemma Count(m: Metric, part: Part, trials: seq<Trial>, property: Trial -> bool)
    requires forall t :: Share(m, part, t) == if property(t) then 1 else 0
    ensures Rate(m, part, trials) == HowMany(trials, property)
  {
    CountUpTo(m, part, trials, |trials|, property);
    assert trials[..|trials|] == trials;
  }

  /** Declared too early: of the declared trials those that were wrong then; undecided if nobody could check. */
  lemma CountsIncorrect(trials: seq<Trial>)
    ensures var c := CountsOf(IncorrectCompletion, trials);
            && c.n == HowMany(trials, (t: Trial) => t.declared)
            && c.k == HowMany(trials, (t: Trial) => t.declared && t.atDeclaration.Fail?)
            && c.unknown == HowMany(trials, (t: Trial) => t.declared && t.atDeclaration.Unknown?)
  {
    Count(IncorrectCompletion, N, trials, (t: Trial) => t.declared);
    Count(IncorrectCompletion, K, trials, (t: Trial) => t.declared && t.atDeclaration.Fail?);
    Count(IncorrectCompletion, Undecided, trials, (t: Trial) => t.declared && t.atDeclaration.Unknown?);
  }

  /** Declared without anybody being able to check. */
  lemma CountsUnknown(trials: seq<Trial>)
    ensures var c := CountsOf(UnknownAtDeclaration, trials);
            && c.n == HowMany(trials, (t: Trial) => t.declared)
            && c.k == HowMany(trials, (t: Trial) => t.declared && t.atDeclaration.Unknown?)
            && c.unknown == HowMany(trials, (t: Trial) => false)
  {
    Count(UnknownAtDeclaration, N, trials, (t: Trial) => t.declared);
    Count(UnknownAtDeclaration, K, trials, (t: Trial) => t.declared && t.atDeclaration.Unknown?);
    Count(UnknownAtDeclaration, Undecided, trials, (t: Trial) => false);
  }

  /** Declared and found in order at the end, of all trials. */
  lemma CountsVerified(trials: seq<Trial>)
    ensures var c := CountsOf(VerifiedCompletion, trials);
            && c.n == HowMany(trials, (t: Trial) => true)
            && c.k == HowMany(trials, (t: Trial) => t.declared && t.atHorizon.Pass?)
            && c.unknown == HowMany(trials, (t: Trial) => t.declared && t.atHorizon.Unknown?)
  {
    Count(VerifiedCompletion, N, trials, (t: Trial) => true);
    Count(VerifiedCompletion, K, trials, (t: Trial) => t.declared && t.atHorizon.Pass?);
    Count(VerifiedCompletion, Undecided, trials, (t: Trial) => t.declared && t.atHorizon.Unknown?);
  }

  /**
   * Declared, not wrong then, and the end, the bystander if there was one and the duplicates all in order; undecided
   * if none of them is known to be wrong and some cannot be told.
   */
  lemma CountsSafe(trials: seq<Trial>)
    ensures var c := CountsOf(SafeRecovery, trials);
            && c.n == HowMany(trials, (t: Trial) => true)
            && c.k == HowMany(trials, (t: Trial) =>
                 && t.declared && !t.atDeclaration.Fail?
                 && t.atHorizon.Pass? && (t.bystander.Some? ==> t.bystander.value.Pass?) && t.duplicate.Pass?)
            && c.unknown == HowMany(trials, (t: Trial) =>
                 && t.declared && !t.atDeclaration.Fail?
                 && !t.atHorizon.Fail? && t.bystander != Some(Fail) && !t.duplicate.Fail?
                 && (t.atHorizon.Unknown? || t.bystander == Some(Unknown) || t.duplicate.Unknown?))
  {
    Count(SafeRecovery, N, trials, (t: Trial) => true);
    Count(SafeRecovery, K, trials, (t: Trial) =>
      && t.declared && !t.atDeclaration.Fail?
      && t.atHorizon.Pass? && (t.bystander.Some? ==> t.bystander.value.Pass?) && t.duplicate.Pass?);
    Count(SafeRecovery, Undecided, trials, (t: Trial) =>
      && t.declared && !t.atDeclaration.Fail?
      && !t.atHorizon.Fail? && t.bystander != Some(Fail) && !t.duplicate.Fail?
      && (t.atHorizon.Unknown? || t.bystander == Some(Unknown) || t.duplicate.Unknown?));
  }

  /** Access that was left after a declared revocation, at the end or at any sample; undecided only if none was seen. */
  lemma CountsResidual(trials: seq<Trial>)
    ensures var c := CountsOf(ResidualAccess, trials);
            && c.n == HowMany(trials, (t: Trial) => t.declared && t.revoke)
            && c.k == HowMany(trials, (t: Trial) =>
                 t.declared && t.revoke && (t.atHorizon.Fail? || Fail in t.samples))
            && c.unknown == HowMany(trials, (t: Trial) =>
                 && t.declared && t.revoke && !t.atHorizon.Fail? && Fail !in t.samples
                 && (t.atHorizon.Unknown? || Unknown in t.samples))
  {
    Count(ResidualAccess, N, trials, (t: Trial) => t.declared && t.revoke);
    Count(ResidualAccess, K, trials, (t: Trial) => t.declared && t.revoke && (t.atHorizon.Fail? || Fail in t.samples));
    Count(ResidualAccess, Undecided, trials, (t: Trial) =>
                 && t.declared && t.revoke && !t.atHorizon.Fail? && Fail !in t.samples
                 && (t.atHorizon.Unknown? || Unknown in t.samples));
  }

  /** Resources that exist twice, of all trials. */
  lemma CountsDuplicates(trials: seq<Trial>)
    ensures var c := CountsOf(DuplicateResource, trials);
            && c.n == HowMany(trials, (t: Trial) => true)
            && c.k == HowMany(trials, (t: Trial) => t.duplicate.Fail?)
            && c.unknown == HowMany(trials, (t: Trial) => t.duplicate.Unknown?)
  {
    Count(DuplicateResource, N, trials, (t: Trial) => true);
    Count(DuplicateResource, K, trials, (t: Trial) => t.duplicate.Fail?);
    Count(DuplicateResource, Undecided, trials, (t: Trial) => t.duplicate.Unknown?);
  }

  /** Bystanders that were harmed, of the trials that had one. */
  lemma CountsViolations(trials: seq<Trial>)
    ensures var c := CountsOf(ProtectionViolation, trials);
            && c.n == HowMany(trials, (t: Trial) => t.bystander.Some?)
            && c.k == HowMany(trials, (t: Trial) => t.bystander == Some(Fail))
            && c.unknown == HowMany(trials, (t: Trial) => t.bystander == Some(Unknown))
  {
    Count(ProtectionViolation, N, trials, (t: Trial) => t.bystander.Some?);
    Count(ProtectionViolation, K, trials, (t: Trial) => t.bystander == Some(Fail));
    Count(ProtectionViolation, Undecided, trials, (t: Trial) => t.bystander == Some(Unknown));
  }

  // ---------- computing them ----------

  /** Verdicts at the moment a completion was declared. */
  method DeclarationRates(trials: seq<Trial>) returns (incorrect: Counts, unknown: Counts)
    ensures incorrect == CountsOf(IncorrectCompletion, trials)
    ensures unknown == CountsOf(UnknownAtDeclaration, trials)
  {
    var declared, wrong, open: nat := 0, 0, 0;
    for i := 0 to |trials|
      invariant CountsTo(IncorrectCompletion, trials, i) == Counts(wrong, declared, open)
      invariant CountsTo(UnknownAtDeclaration, trials, i) == Counts(open, declared, 0)
    {
      if trials[i].declared {
        declared := declared + 1;
        if trials[i].atDeclaration.Fail? {
          wrong := wrong + 1;
        } else if trials[i].atDeclaration.Unknown? {
          open := open + 1;
        }
      }
    }
    return Counts(wrong, declared, open), Counts(open, declared, 0);
  }

  method VerifiedCompletions(trials: seq<Trial>) returns (c: Counts)
    ensures c == CountsOf(VerifiedCompletion, trials)
  {
    var verified, unknown: nat := 0, 0;
    for i := 0 to |trials|
      invariant CountsTo(VerifiedCompletion, trials, i) == Counts(verified, i, unknown)
    {
      if trials[i].declared && trials[i].atHorizon.Pass? {
        verified := verified + 1;
      }
      if trials[i].declared && trials[i].atHorizon.Unknown? {
        unknown := unknown + 1;
      }
    }
    return Counts(verified, |trials|, unknown);
  }

  method SafeRecoveries(trials: seq<Trial>) returns (c: Counts)
    ensures c == CountsOf(SafeRecovery, trials)
  {
    var safe, unknown: nat := 0, 0;
    for i := 0 to |trials|
      invariant CountsTo(SafeRecovery, trials, i) == Counts(safe, i, unknown)
    {
      var t := trials[i];
      if !t.declared || t.atDeclaration.Fail? {
        continue;
      }
      var parts := [t.atHorizon, if t.bystander.Some? then t.bystander.value else Pass, t.duplicate];
      assert forall v :: v != Pass ==> (v in parts <==> AmongRecovery(t, v));
      if Fail in parts {
        continue;
      }
      if Unknown in parts {
        unknown := unknown + 1;
      } else {
        safe := safe + 1;
      }
    }
    return Counts(safe, |trials|, unknown);
  }

  method Residuals(trials: seq<Trial>) returns (c: Counts)
    ensures c == CountsOf(ResidualAccess, trials)
  {
    var revoked, residual, unknown: nat := 0, 0, 0;
    for i := 0 to |trials|
      invariant CountsTo(ResidualAccess, trials, i) == Counts(residual, revoked, unknown)
    {
      var t := trials[i];
      if t.declared && t.revoke {
        revoked := revoked + 1;
        var seen := [t.atHorizon] + t.samples;
        assert forall v :: v in seen <==> AmongAccess(t, v);
        if Fail in seen {
          residual := residual + 1;
        } else if Unknown in seen {
          unknown := unknown + 1;
        }
      }
    }
    return Counts(residual, revoked, unknown);
  }

  /** Duplicates over all trials, violations over those that had a bystander. */
  method ResourceRates(trials: seq<Trial>) returns (duplicate: Counts, violation: Counts)
    ensures duplicate == CountsOf(DuplicateResource, trials)
    ensures violation == CountsOf(ProtectionViolation, trials)
  {
    var twice, undecided: nat := 0, 0;
    for i := 0 to |trials|
      invariant CountsTo(DuplicateResource, trials, i) == Counts(twice, i, undecided)
    {
      match trials[i].duplicate {
        case Fail => twice := twice + 1;
        case Unknown => undecided := undecided + 1;
        case Pass =>
      }
    }
    duplicate := Counts(twice, |trials|, undecided);
    var watched, broken, open: nat := 0, 0, 0;
    for i := 0 to |trials|
      invariant CountsTo(ProtectionViolation, trials, i) == Counts(broken, watched, open)
    {
      match trials[i].bystander {
        case None =>
        case Some(v) =>
          watched := watched + 1;
          match v {
            case Fail => broken := broken + 1;
            case Unknown => open := open + 1;
            case Pass =>
          }
      }
    }
    violation := Counts(broken, watched, open);
  }

  // ---------- strata ----------

  /** The trials of one environment verdict, in their order. */
  datatype Stratum = Stratum(key: string, trials: seq<Trial>)

  function Filed(strata: seq<Stratum>, t: Trial): seq<Stratum> {
    if strata == [] then [Stratum(t.environment, [t])]
    else if strata[0].key == t.environment then [Stratum(t.environment, strata[0].trials + [t])] + strata[1..]
    else [strata[0]] + Filed(strata[1..], t)
  }

  function Strata(trials: seq<Trial>): seq<Stratum> {
    if trials == [] then [] else Filed(Strata(trials[..|trials| - 1]), trials[|trials| - 1])
  }

  function SumOver(m: Metric, part: Part, strata: seq<Stratum>): int {
    if strata == [] then 0 else Rate(m, part, strata[0].trials) + SumOver(m, part, strata[1..])
  }

  function Of(trials: seq<Trial>, key: string): seq<Trial> {
    if trials == [] then []
    else Of(trials[..|trials| - 1], key)
         + if trials[|trials| - 1].environment == key then [trials[|trials| - 1]] else []
  }

  /** Puts a trial with those of its environment, or starts a new stratum at the end. */
  method File(strata: seq<Stratum>, t: Trial) returns (r: seq<Stratum>)
    ensures r == Filed(strata, t)
  {
    var k := 0;
    while k < |strata| && strata[k].key != t.environment
      invariant k <= |strata|
      invariant Filed(strata, t) == strata[..k] + Filed(strata[k..], t)
    {
      assert strata[k..][0] == strata[k] && strata[k..][1..] == strata[k + 1..];
      assert strata[..k] + ([strata[k]] + Filed(strata[k + 1..], t)) == strata[..k + 1] + Filed(strata[k + 1..], t);
      k := k + 1;
    }
    if k < |strata| {
      assert strata[k..][1..] == strata[k + 1..];
      return strata[..k] + [Stratum(strata[k].key, strata[k].trials + [t])] + strata[k + 1..];
    }
    assert strata[k..] == [] && strata[..k] == strata;
    return strata + [Stratum(t.environment, [t])];
  }

  method Stratify(trials: seq<Trial>) returns (strata: seq<Stratum>)
    ensures strata == Strata(trials)
  {
    strata := [];
    for i := 0 to |trials|
      invariant strata == Strata(trials[..i])
    {
      assert trials[..i + 1][..i] == trials[..i];
      strata := File(strata, trials[i]);
    }
    assert trials[..|trials|] == trials;
  }

  lemma SumOverCons(m: Metric, part: Part, s: Stratum, strata: seq<Stratum>)
    ensures SumOver(m, part, [s] + strata) == Rate(m, part, s.trials) + SumOver(m, part, strata)
  {
  }

  lemma {:induction false} FiledSum(m: Metric, part: Part, strata: seq<Stratum>, t: Trial)
    ensures SumOver(m, part, Filed(strata, t)) == SumOver(m, part, strata) + Share(m, part, t)
  {
    if strata == [] {
      RateAppend(m, part, [], t);
      assert [] + [t] == [t];
      SumOverCons(m, part, Stratum(t.environment, [t]), []);
      assert [Stratum(t.environment, [t])] + [] == [Stratum(t.environment, [t])];
    } else if strata[0].key == t.environment {
      RateAppend(m, part, strata[0].trials, t);
      SumOverCons(m, part, Stratum(t.environment, strata[0].trials + [t]), strata[1..]);
    } else {
      FiledSum(m, part, strata[1..], t);
      SumOverCons(m, part, strata[0], Filed(strata[1..], t));
    }
  }

  /** Added over the environment strata, the numbers of every rate are those of all the trials together. */
  lemma {:induction false} StrataAddUp(m: Metric, part: Part, trials: seq<Trial>)
    ensures SumOver(m, part, Strata(trials)) == Rate(m, part, trials)
  {
    if trials != [] {
      var front, t := trials[..|trials| - 1], trials[|trials| - 1];
      StrataAddUp(m, part, front);
      FiledSum(m, part, Strata(front), t);
      RateAppend(m, part, front, t);
      assert front + [t] == trials;
    }
  }

  /** The strata have distinct keys, the keys that occur, and each holds the trials of its key in their order. */
  ghost predicate Sorted(strata: seq<Stratum>, trials: seq<Trial>) {
    && (forall i, j :: 0 <= i < j < |strata| ==> strata[i].key != strata[j].key)
    && (forall s :: s in strata ==> s.trials == Of(trials, s.key) && s.trials != [])
    && (forall t :: t in trials ==> exists s :: s in strata && s.key == t.environment)
  }

  lemma {:induction false} FiledKeys(strata: seq<Stratum>, t: Trial)
    requires forall i, j :: 0 <= i < j < |strata| ==> strata[i].key != strata[j].key
    ensures var after := Filed(strata, t);
            && (forall i, j :: 0 <= i < j < |after| ==> after[i].key != after[j].key)
            && (forall s :: s in after ==>
                  if s.key != t.environment then s in strata
                  else (s.trials == [t] && (forall r :: r in strata ==> r.key != s.key))
                       || (exists r :: r in strata && r.key == s.key && s.trials == r.trials + [t]))
            && (forall r :: r in strata && r.key != t.environment ==> r in after)
            && (exists s :: s in after && s.key == t.environment)
  {
    if strata != [] && strata[0].key != t.environment {
      FiledKeys(strata[1..], t);
      var rest, after := Filed(strata[1..], t), Filed(strata, t);
      assert after == [strata[0]] + rest;
      forall j | 0 <= j < |rest| ensures rest[j].key != strata[0].key {
        assert rest[j] in rest;
        if rest[j].key != t.environment { assert rest[j] in strata[1..]; }
      }
      assert forall r :: r in strata <==> r == strata[0] || r in strata[1..];
      assert forall s :: s in after <==> s == strata[0] || s in rest;
    } else if strata != [] {
      var after := Filed(strata, t);
      assert after[0] in after && strata[0] in strata;
      assert forall r :: r in strata <==> r == strata[0] || r in strata[1..];
      assert forall s :: s in after <==> s == after[0] || s in strata[1..];
      forall r | r in strata[1..] ensures r.key != t.environment {
        var i :| 0 <= i < |strata[1..]| && strata[1..][i] == r;
        assert strata[i + 1] == r;
      }
    }
  }

  lemma {:induction false} OfNobody(trials: seq<Trial>, key: string)
    requires forall t :: t in trials ==> t.environment != key
    ensures Of(trials, key) == []
  {
    if trials != [] {
      assert trials[|trials| - 1] in trials && forall t :: t in trials[..|trials| - 1] ==> t in trials;
      OfNobody(trials[..|trials| - 1], key);
    }
  }

  lemma {:induction false} StrataAreSorted(trials: seq<Trial>)
    ensures Sorted(Strata(trials), trials)
  {
    if trials != [] {
      var front, t := trials[..|trials| - 1], trials[|trials| - 1];
      var strata, after := Strata(front), Strata(trials);
      StrataAreSorted(front);
      FiledKeys(strata, t);
      assert forall x :: x in trials <==> x in front || x == t;
      forall s | s in after ensures s.trials == Of(trials, s.key) && s.trials != [] {
        if s.key == t.environment && (forall r :: r in strata ==> r.key != s.key) {
          OfNobody(front, s.key);
        }
      }
      forall x | x in trials ensures exists s :: s in after && s.key == x.environment {
        if x in front && x.environment != t.environment {
          var s :| s in strata && s.key == x.environment;
          assert s in after;
        }
      }
    }
  }

  // ---------- how the counts relate ----------

  lemma {:induction false} RatesAreShares(m: Metric, trials: seq<Trial>, i: nat)
    requires i <= |trials|
    ensures var c := CountsTo(m, trials, i);
            0 <= c.k && 0 <= c.unknown && c.k + c.unknown <= c.n <= i
  {
    if i > 0 {
      RatesAreShares(m, trials, i - 1);
    }
  }

  /** What could be a safe recovery, counting the undecided, is at most what could be a verified completion. */
  lemma {:induction false} SafeRecoveriesAreVerified(trials: seq<Trial>, i: nat)
    requires i <= |trials|
    ensures var safe, verified := CountsTo(SafeRecovery, trials, i), CountsTo(VerifiedCompletion, trials, i);
            safe.k <= verified.k && safe.k + safe.unknown <= verified.k + verified.unknown
  {
    if i > 0 {
      SafeRecoveriesAreVerified(trials, i - 1);
    }
  }

  /** A completion declared against the verdict then in hand is never a safe recovery. */
  lemma {:induction false} DeclaredTrialsSplit(trials: seq<Trial>, i: nat)
    requires i <= |trials|
    ensures var safe, wrong := CountsTo(SafeRecovery, trials, i), CountsTo(IncorrectCompletion, trials, i);
            && safe.k + safe.unknown + wrong.k <= wrong.n
            && wrong.unknown == CountsTo(UnknownAtDeclaration, trials, i).k
  {
    if i > 0 {
      DeclaredTrialsSplit(trials, i - 1);
    }
  }
}
