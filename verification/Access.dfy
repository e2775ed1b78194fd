/**
 * Blocking and unblocking an account: every job compares its registration time with the times written on the
 * account's Services and patches those that lag behind, under a version check. Any number of jobs may run,
 * fail, be cut off and be run again at the same time.
 */
module Access {
  import opened Prelude

  /** What a Service carries: when its state was decided and whether it is blocked. */
  datatype Decision = Decision(at: int, blocked: bool)

  /** The order of decisions: by time, and blocked above open at the same time. */
  predicate AtMost(d: Decision, e: Decision) {
    d.at < e.at || (d.at == e.at && (d.blocked ==> e.blocked))
  }

  function Top(d: Decision, e: Decision): Decision {
    if AtMost(d, e) then e else d
  }

  /** One Service from creation to deletion; a Service created again under the same name is another one. */
  type Id = nat

  datatype Service = Service(state: Decision, version: nat)

  type Services = map<Id, Service>

  // ---------- the step's own tests, as written ----------

  predicate Superseded(services: Services, d: Decision) {
    if d.blocked then exists i :: i in services && !services[i].state.blocked && services[i].state.at > d.at
    else exists i :: i in services && services[i].state.blocked && services[i].state.at >= d.at
  }

  predicate Stale(state: Decision, d: Decision) {
    state.blocked != d.blocked || state.at < d.at
  }

  function Patched(state: Decision, d: Decision): Decision {
    Decision(Max(d.at, state.at), d.blocked)
  }

  /** A job stands down exactly when some Service has the opposite state by a greater decision. */
  lemma StandsDownBelowAGreater(services: Services, d: Decision)
    ensures Superseded(services, d) <==>
              exists i :: i in services && services[i].state.blocked != d.blocked && !AtMost(services[i].state, d)
  {
  }

  /** A job that does not stand down patches exactly what is below it, and each patch takes the maximum. */
  lemma PatchTakesTheMaximum(services: Services, d: Decision, i: Id)
    requires !Superseded(services, d) && i in services
    ensures Stale(services[i].state, d) <==> !AtMost(d, services[i].state)
    ensures Stale(services[i].state, d) ==> Patched(services[i].state, d) == Top(services[i].state, d)
  {
  }

  // ---------- the step itself, undisturbed ----------

  datatype Outcome = Changed(services: nat) | StoodDown | CallFailed

  class Cluster {
    var services: Services
    var version: nat

    constructor (services: Services, version: nat)
      ensures this.services == services && this.version == version
    {
      this.services, this.version := services, version;
    }

    /** The patches, in the order of the listing; `reached` is how far they came. */
    method PatchStale(d: Decision, order: seq<Id>, refuses: nat -> bool) returns (reached: nat)
      requires Distinct(order) && (forall i :: i in order ==> i in services) && !Superseded(services, d)
      modifies this
      ensures services.Keys == old(services).Keys
      ensures reached <= |order| && (reached < |order| ==> refuses(reached + 1))
      ensures forall i :: i in services ==>
                services[i].state == if i in order[..reached] then Top(old(services)[i].state, d) else old(services)[i].state
      ensures forall i :: i in services && services[i].state == old(services)[i].state ==> services[i] == old(services)[i]
    {
      var seen := services;
      reached := 0;
      while reached < |order|
        invariant reached <= |order|
        invariant services.Keys == seen.Keys
        invariant forall i :: i in services ==>
                    services[i].state == if i in order[..reached] then Top(seen[i].state, d) else seen[i].state
        invariant forall i :: i in services && services[i].state == seen[i].state ==> services[i] == seen[i]
      {
        var i := order[reached];
        assert order[..reached + 1] == order[..reached] + [i];
        assert i !in order[..reached];
        PatchTakesTheMaximum(seen, d, i);
        if Stale(seen[i].state, d) {
          if refuses(reached + 1) {
            return;
          }
          version := version + 1;
          services := services[i := Service(Patched(seen[i].state, d), version)];
        }
        reached := reached + 1;
      }
    }

    /** `refuses(k)` says whether the k-th call to the cluster fails; `order` is the order of its listing. */
    method SetAccess(d: Decision, order: seq<Id>, refuses: nat -> bool) returns (outcome: Outcome)
      requires Distinct(order) && (forall i :: i in order <==> i in services)
      modifies this
      ensures services.Keys == old(services).Keys
      ensures refuses(0) ==> outcome.CallFailed? && services == old(services)
      // an opposite decision is in the way if it is later, or of the same time and a block
      ensures !refuses(0) ==>
                (outcome.StoodDown? <==>
                   exists i :: i in old(services) && old(services)[i].state.blocked != d.blocked
                     && if d.blocked then old(services)[i].state.at > d.at else old(services)[i].state.at >= d.at)
      ensures outcome.StoodDown? ==> services == old(services)
      ensures outcome.Changed? ==> forall i :: i in services ==>
                services[i].state == Decision(Max(old(services)[i].state.at, d.at), d.blocked)
      ensures outcome.Changed? ==> outcome.services == |order| && !Superseded(old(services), d)
      ensures outcome.Changed? ==> forall i :: i in services ==> services[i].state == Top(old(services)[i].state, d)
      // a failed call leaves a prefix of the listing patched, the rest as it was
      ensures outcome.CallFailed? ==> PatchedUpTo(old(services), services, d, order)
      ensures forall i :: i in services && services[i].state == old(services)[i].state ==> services[i] == old(services)[i]
      ensures (forall k :: !refuses(k)) ==> !outcome.CallFailed?
    {
      if refuses(0) {
        assert order[..0] == [];
        return CallFailed;
      }
      if Superseded(services, d) {
        return StoodDown;
      }
      var reached := PatchStale(d, order, refuses);
      if reached < |order| {
        return CallFailed;
      }
      assert order[..reached] == order;
      return Changed(|order|);
    }
  }

  /** Some prefix of the listing has been patched, when any of it may be. */
  ghost predicate PatchedUpTo(before: Services, after: Services, d: Decision, order: seq<Id>) {
    && before.Keys == after.Keys
    && exists k: nat :: k <= |order| && (Superseded(before, d) ==> k == 0) && forall i :: i in after ==>
         after[i].state == if i in order[..k] then Top(before[i].state, d) else before[i].state
  }

  /** Run again after a failed call, the job neither stands down nor ends anywhere else than undisturbed. */
  lemma RetryConverges(before: Services, middle: Services, d: Decision, order: seq<Id>)
    requires !Superseded(before, d) && PatchedUpTo(before, middle, d, order)
    ensures !Superseded(middle, d)
    ensures forall i :: i in middle ==> Top(middle[i].state, d) == Top(before[i].state, d)
  {
  }

  // ---------- any number of jobs at once ----------

  type ProcId = int

  /** A job between its listing and its last patch: what it listed and what it has still to patch. */
  datatype Proc = Proc(decision: Decision, seen: Services, todo: set<Id>)

  /** `born` and `patches` record what each Service was created with and which decisions have patched it. */
  datatype Sys = Sys(
    services: Services,
    version: nat,
    procs: map<ProcId, Proc>,
    born: map<Id, Decision>,
    patches: map<Id, seq<Decision>>)

  const INIT: Sys := Sys(map[], 0, map[], map[], map[])

  datatype Action =
    | List(p: ProcId, decision: Decision)
    | Patch(p: ProcId, i: Id)
    | Finish(p: ProcId)
    | Drop(p: ProcId)
    | Create(i: Id, state: Decision)
    | Delete(i: Id)
    | Touch(i: Id)

  function Store(s: Sys, i: Id, state: Decision): Sys {
    s.(services := s.services[i := Service(state, s.version + 1)], version := s.version + 1)
  }

  /** One step of anybody; None when it cannot happen. A job that failed or was cut off may list again. */
  function Act(s: Sys, a: Action): Option<Sys> {
    match a
    case List(p, d) =>
      if p in s.procs then None
      else if Superseded(s.services, d) then Some(s)
      else Some(s.(procs := s.procs[p := Proc(d, s.services, set i | i in s.services && Stale(s.services[i].state, d))]))
    case Patch(p, i) =>
      if p !in s.procs || i !in s.procs[p].todo || i !in s.procs[p].seen then None
      else
        var job := s.procs[p];
        if i in s.services && s.services[i].version == job.seen[i].version && i in s.patches then
          Some(Store(s, i, Patched(job.seen[i].state, job.decision)).(
            procs := s.procs[p := job.(todo := job.todo - {i})],
            patches := s.patches[i := s.patches[i] + [job.decision]]))
        else Some(s.(procs := s.procs - {p}))
    case Finish(p) => if p !in s.procs || s.procs[p].todo != {} then None else Some(s.(procs := s.procs - {p}))
    case Drop(p) => if p !in s.procs then None else Some(s.(procs := s.procs - {p}))
    case Create(i, state) =>
      if i in s.born then None
      else Some(Store(s, i, state).(born := s.born[i := state], patches := s.patches[i := []]))
    case Delete(i) => if i !in s.services then None else Some(s.(services := s.services - {i}))
    case Touch(i) => if i !in s.services then None else Some(Store(s, i, s.services[i].state))
  }

  function Play(s: Sys, actions: seq<Action>): Option<Sys>
    decreases |actions|
  {
    if actions == [] then Some(s)
    else
      match Act(s, actions[0])
      case None => None
      case Some(next) => Play(next, actions[1..])
  }

  /** The job is about to report success. */
  ghost predicate Succeeds(s: Sys, p: ProcId) {
    Act(s, Finish(p)).Some?
  }

  /** The greatest of an initial state and the decisions that patched it. */
  function Greatest(born: Decision, patches: seq<Decision>): Decision {
    if patches == [] then born else Top(Greatest(born, patches[..|patches| - 1]), patches[|patches| - 1])
  }

  lemma GreatestAppend(born: Decision, patches: seq<Decision>, d: Decision)
    ensures Greatest(born, patches + [d]) == Top(Greatest(born, patches), d)
  {
  }

  /** It is one of them and above all of them, whatever the order they came in. */
  lemma {:induction false} GreatestIsMaximum(born: Decision, patches: seq<Decision>)
    ensures var g := Greatest(born, patches);
            && (g == born || g in patches)
            && AtMost(born, g)
            && (forall d :: d in patches ==> AtMost(d, g))
  {
    if patches != [] {
      var front := patches[..|patches| - 1];
      GreatestIsMaximum(born, front);
      forall d | d in patches ensures AtMost(d, Greatest(born, patches)) {
        assert d in front || d == patches[|patches| - 1];
      }
    }
  }

  ghost predicate ServicesHold(s: Sys) {
    && s.born.Keys == s.patches.Keys
    && (forall i :: i in s.services ==>
          && i in s.born
          && s.services[i].version <= s.version
          && s.services[i].state == Greatest(s.born[i], s.patches[i]))
  }

  /** What a job's listing still says about the Services that live. */
  ghost predicate ListingHolds(s: Sys, job: Proc) {
    && job.todo <= job.seen.Keys
    && !Superseded(job.seen, job.decision)
    && (forall i :: i in job.seen ==> i in s.born && AtMost(s.born[i], job.seen[i].state))
    && (forall i :: i in job.seen && i in s.services ==>
          && AtMost(job.seen[i].state, s.services[i].state)
          && (job.seen[i].version == s.services[i].version ==> job.seen[i] == s.services[i])
          && (i in job.todo ==> Stale(job.seen[i].state, job.decision))
          && (i !in job.todo ==> AtMost(job.decision, s.services[i].state)))
    && (forall i :: i in job.seen ==> job.seen[i].version <= s.version)
  }

  ghost predicate Inv(s: Sys) {
    ServicesHold(s) && forall p :: p in s.procs ==> ListingHolds(s, s.procs[p])
  }

  lemma ListKeeps(s: Sys, p: ProcId, d: Decision)
    requires Inv(s) && Act(s, List(p, d)).Some?
    ensures Inv(Act(s, List(p, d)).value)
  {
    forall i | i in s.services
      ensures AtMost(s.born[i], s.services[i].state)
      ensures !Superseded(s.services, d) && !Stale(s.services[i].state, d) ==> AtMost(d, s.services[i].state)
    {
      GreatestIsMaximum(s.born[i], s.patches[i]);
      if !Superseded(s.services, d) { PatchTakesTheMaximum(s.services, d, i); }
    }
  }

  /** A Service stored under a new version with a state no lower: every listing still holds. */
  lemma StoreKeepsListing(s: Sys, i: Id, state: Decision, job: Proc)
    requires ServicesHold(s) && ListingHolds(s, job) && i in s.services && AtMost(s.services[i].state, state)
    ensures ListingHolds(Store(s, i, state), job)
  {
  }

  lemma PatchKeeps(s: Sys, p: ProcId, i: Id)
    requires Inv(s) && Act(s, Patch(p, i)).Some?
    ensures Inv(Act(s, Patch(p, i)).value)
  {
    var job := s.procs[p];
    if i in s.services && s.services[i].version == job.seen[i].version && i in s.patches {
      PatchTakesTheMaximum(job.seen, job.decision, i);
      GreatestAppend(s.born[i], s.patches[i], job.decision);
      var state := Patched(job.seen[i].state, job.decision);
      var s' := Act(s, Patch(p, i)).value;
      forall q | q in s'.procs ensures ListingHolds(s', s'.procs[q]) {
        StoreKeepsListing(s, i, state, s.procs[q]);
        assert ListingHolds(Store(s, i, state), s.procs[q]);
      }
    }
  }

  lemma CreateKeeps(s: Sys, i: Id, state: Decision)
    requires Inv(s) && Act(s, Create(i, state)).Some?
    ensures Inv(Act(s, Create(i, state)).value)
  {
  }

  lemma ActKeeps(s: Sys, a: Action)
    requires Inv(s) && Act(s, a).Some?
    ensures Inv(Act(s, a).value)
  {
    match a {
      case List(p, d) => ListKeeps(s, p, d);
      case Patch(p, i) => PatchKeeps(s, p, i);
      case Create(i, state) => CreateKeeps(s, i, state);
      case Touch(i) =>
        forall q | q in s.procs ensures ListingHolds(Store(s, i, s.services[i].state), s.procs[q]) {
          StoreKeepsListing(s, i, s.services[i].state, s.procs[q]);
        }
      case _ =>
    }
  }

  lemma {:induction false} PlayKeeps(s: Sys, actions: seq<Action>)
    requires Inv(s) && Play(s, actions).Some?
    ensures Inv(Play(s, actions).value)
    decreases |actions|
  {
    if actions != [] {
      ActKeeps(s, actions[0]);
      PlayKeeps(Act(s, actions[0]).value, actions[1..]);
    }
  }

  // ---------- the results ----------

  /**
   * Under every interleaving each Service holds the greatest of the state it was created with and the decisions
   * that have patched it.
   */
  lemma EachServiceHoldsTheMaximum(actions: seq<Action>, i: Id)
    requires Play(INIT, actions).Some? && i in Play(INIT, actions).value.services
    ensures var s := Play(INIT, actions).value;
            && i in s.born && i in s.patches
            && var state := s.services[i].state;
               && (state == s.born[i] || state in s.patches[i])
               && AtMost(s.born[i], state)
               && (forall d :: d in s.patches[i] ==> AtMost(d, state))
  {
    PlayKeeps(INIT, actions);
    var s := Play(INIT, actions).value;
    GreatestIsMaximum(s.born[i], s.patches[i]);
  }

  /** A job that reports success leaves every Service it listed, and that still lives, at or above its decision. */
  lemma SuccessReachesTheSnapshot(actions: seq<Action>, p: ProcId, i: Id)
    requires Play(INIT, actions).Some?
    requires var s := Play(INIT, actions).value; Succeeds(s, p) && i in s.procs[p].seen && i in s.services
    ensures var s := Play(INIT, actions).value; AtMost(s.procs[p].decision, s.services[i].state)
  {
    PlayKeeps(INIT, actions);
  }

  /** No decision among the listed actions is above `d`. */
  ghost predicate Within(actions: seq<Action>, d: Decision) {
    forall a :: a in actions && a.List? ==> AtMost(a.decision, d)
  }

  /** Neither the jobs at work nor the patches made go above `d`. */
  ghost predicate Bounded(s: Sys, d: Decision) {
    && (forall p :: p in s.procs ==> AtMost(s.procs[p].decision, d))
    && (forall i, e :: i in s.patches && e in s.patches[i] ==> AtMost(e, d))
  }

  lemma {:induction false} PlayStaysBounded(s: Sys, actions: seq<Action>, d: Decision)
    requires Play(s, actions).Some? && Bounded(s, d) && Within(actions, d)
    ensures Bounded(Play(s, actions).value, d)
    decreases |actions|
  {
    if actions != [] {
      assert actions[0] in actions;
      ActStaysBounded(s, actions[0], d);
      PlayStaysBounded(Act(s, actions[0]).value, actions[1..], d);
    }
  }

  lemma ActStaysBounded(s: Sys, a: Action, d: Decision)
    requires Act(s, a).Some? && Bounded(s, d) && (a.List? ==> AtMost(a.decision, d))
    ensures Bounded(Act(s, a).value, d)
  {
  }

  /** When every decision so far is at most `d`, a Service at or above `d` holds exactly the greater of birth and `d`. */
  lemma BoundedStateIsKnown(s: Sys, d: Decision, i: Id)
    requires Inv(s) && Bounded(s, d) && i in s.services && AtMost(d, s.services[i].state)
    ensures s.services[i].state == Top(s.born[i], d)
  {
    GreatestIsMaximum(s.born[i], s.patches[i]);
    var state := s.services[i].state;
    assert state in s.patches[i] ==> AtMost(state, d);
  }

  lemma {:induction false} StatesGrow(s: Sys, actions: seq<Action>, i: Id)
    requires Inv(s) && Play(s, actions).Some?
    requires i in s.services && i in Play(s, actions).value.services
    ensures var last := Play(s, actions).value;
            AtMost(s.services[i].state, last.services[i].state) && i in last.born && last.born[i] == s.born[i]
    decreases |actions|
  {
    if actions != [] {
      var next := Act(s, actions[0]).value;
      ActKeeps(s, actions[0]);
      if i !in next.services {
        GoneForGood(next, actions[1..], i);
        assert false;
      }
      ActGrows(s, actions[0], i);
      StatesGrow(next, actions[1..], i);
    }
  }

  lemma ActGrows(s: Sys, a: Action, i: Id)
    requires Inv(s) && Act(s, a).Some? && i in s.services && i in Act(s, a).value.services
    ensures var next := Act(s, a).value;
            AtMost(s.services[i].state, next.services[i].state) && i in next.born && next.born[i] == s.born[i]
  {
  }

  lemma {:induction false} GoneForGood(s: Sys, actions: seq<Action>, i: Id)
    requires i in s.born && i !in s.services && Play(s, actions).Some?
    ensures i !in Play(s, actions).value.services
    decreases |actions|
  {
    if actions != [] {
      GoneForGood(Act(s, actions[0]).value, actions[1..], i);
    }
  }

  lemma {:induction false} PlayJoin(s: Sys, a: seq<Action>, b: seq<Action>)
    requires Play(s, a).Some?
    ensures Play(s, a + b) == Play(Play(s, a).value, b)
    decreases |a|
  {
    if a == [] {
      assert a + b == b;
    } else {
      assert (a + b)[0] == a[0] && (a + b)[1..] == a[1..] + b;
      PlayJoin(Act(s, a[0]).value, a[1..], b);
    }
  }

  /**
   * Once the greatest decision of a whole run has reported success, every Service it listed has its state, and
   * keeps exactly that state for as long as it lives: no older, repeated or long-delayed job can change it.
   */
  lemma GreatestDecisionStands(before: seq<Action>, after: seq<Action>, p: ProcId, i: Id)
    requires Play(INIT, before).Some?
    requires var s := Play(INIT, before).value;
             && Succeeds(s, p)
             && Within(before, s.procs[p].decision) && Within(after, s.procs[p].decision)
             && i in s.procs[p].seen
             && Play(s, after).Some? && i in s.services && i in Play(s, after).value.services
    ensures var s := Play(INIT, before).value;
            var last := Play(s, after).value;
            && s.services[i].state.blocked == s.procs[p].decision.blocked
            && last.services[i].state == s.services[i].state
            && i in s.born
            && (AtMost(s.born[i], s.procs[p].decision) ==> s.services[i].state == s.procs[p].decision)
  {
    var s := Play(INIT, before).value;
    var d := s.procs[p].decision;
    PlayKeeps(INIT, before);
    PlayStaysBounded(INIT, before, d);
    BoundedStateIsKnown(s, d, i);
    FlagOfTheGreatest(s, p, i);
    PlayKeeps(s, after);
    PlayStaysBounded(s, after, d);
    StatesGrow(s, after, i);
    BoundedStateIsKnown(Play(s, after).value, d, i);
  }

  /** Had the Service been created above `d` with the opposite state, the job would have stood down. */
  lemma FlagOfTheGreatest(s: Sys, p: ProcId, i: Id)
    requires Inv(s) && Succeeds(s, p) && i in s.procs[p].seen && i in s.services
    requires s.services[i].state == Top(s.born[i], s.procs[p].decision)
    ensures s.services[i].state.blocked == s.procs[p].decision.blocked
  {
  }

  // ---------- one job on its own ----------

  function Patches(p: ProcId, order: seq<Id>): seq<Action> {
    seq(|order|, k requires 0 <= k < |order| => Patch(p, order[k]))
  }

  lemma {:induction false} PatchesRunThrough(s: Sys, p: ProcId, order: seq<Id>)
    requires p in s.procs && Distinct(order) && forall i :: i in order <==> i in s.procs[p].todo
    requires !Superseded(s.procs[p].seen, s.procs[p].decision)
    requires forall i :: i in order ==>
               && i in s.procs[p].seen && i in s.services && s.services[i] == s.procs[p].seen[i] && i in s.patches
               && Stale(s.procs[p].seen[i].state, s.procs[p].decision)
    ensures var last := Play(s, Patches(p, order));
            && last.Some? && last.value.procs == s.procs[p := s.procs[p].(todo := {})]
            && last.value.services.Keys == s.services.Keys
            && forall i :: i in s.services ==>
                 last.value.services[i].state
                 == if i in order then Top(s.services[i].state, s.procs[p].decision) else s.services[i].state
    decreases |order|
  {
    if order == [] {
      assert s.procs[p].todo == {};
    } else {
      var job, i, rest := s.procs[p], order[0], order[1..];
      assert order == [i] + rest && i in order && i !in rest;
      PatchTakesTheMaximum(job.seen, job.decision, i);
      var next := Act(s, Patch(p, i)).value;
      assert Patches(p, order)[1..] == Patches(p, rest);
      PatchesRunThrough(next, p, rest);
    }
  }

  /**
   * A job that nobody disturbs lists, patches what is below its decision in any order and can then report success;
   * it leaves every Service as `SetAccess` does, and with a greater opposite decision in the way it does nothing.
   */
  lemma JobRunsThrough(s: Sys, p: ProcId, d: Decision, order: seq<Id>)
    requires Inv(s) && p !in s.procs && Distinct(order)
    requires forall i :: i in order <==> i in s.services && !AtMost(d, s.services[i].state)
    ensures (exists i :: i in s.services && s.services[i].state.blocked != d.blocked
                         && if d.blocked then s.services[i].state.at > d.at else s.services[i].state.at >= d.at)
            ==> Act(s, List(p, d)) == Some(s)
    ensures !(exists i :: i in s.services && s.services[i].state.blocked != d.blocked
                          && if d.blocked then s.services[i].state.at > d.at else s.services[i].state.at >= d.at)
            ==> var last := Play(s, [List(p, d)] + Patches(p, order) + [Finish(p)]);
                && last.Some? && last.value.procs == s.procs && last.value.services.Keys == s.services.Keys
                && forall i :: i in s.services ==>
                     last.value.services[i].state == Decision(Max(s.services[i].state.at, d.at), d.blocked)
  {
    if !Superseded(s.services, d) {
      forall i | i in s.services ensures Stale(s.services[i].state, d) <==> !AtMost(d, s.services[i].state) {
        PatchTakesTheMaximum(s.services, d, i);
      }
      ListedRunsThrough(s, p, d, order);
    }
  }

  lemma ListedRunsThrough(s: Sys, p: ProcId, d: Decision, order: seq<Id>)
    requires Inv(s) && p !in s.procs && Distinct(order) && !Superseded(s.services, d)
    requires forall i :: i in order <==> i in s.services && Stale(s.services[i].state, d)
    ensures var last := Play(s, [List(p, d)] + Patches(p, order) + [Finish(p)]);
            && last.Some? && last.value.procs == s.procs && last.value.services.Keys == s.services.Keys
            && forall i :: i in s.services ==>
                 last.value.services[i].state == if i in order then Top(s.services[i].state, d) else s.services[i].state
  {
    var listed := Act(s, List(p, d)).value;
    PatchesRunThrough(listed, p, order);
    PlayJoin(s, [List(p, d)] + Patches(p, order), [Finish(p)]);
    PlayJoin(s, [List(p, d)], Patches(p, order));
    var patched := Play(listed, Patches(p, order)).value;
    assert Play(s, [List(p, d)]) == Some(listed) && Play(patched, [Finish(p)]) == Act(patched, Finish(p));
    assert patched.procs - {p} == s.procs;
  }

  /** Everything else may happen at any time: a job is cut off, a Service is deleted, or written by somebody else. */
  lemma AnythingMayHappen(s: Sys, p: ProcId, i: Id)
    ensures p in s.procs ==>
              var next := Act(s, Drop(p)); next.Some? && next.value.services == s.services && p !in next.value.procs
    ensures i in s.services ==>
              && Act(s, Delete(i)).Some? && Act(s, Delete(i)).value.services == s.services - {i}
              && Act(s, Touch(i)).Some? && i in Act(s, Touch(i)).value.services
              && Act(s, Touch(i)).value.services[i].state == s.services[i].state
              && Act(s, Touch(i)).value.services[i].version > s.version
  {
  }
}
