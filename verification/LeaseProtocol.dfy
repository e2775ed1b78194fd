/**
 * Any number of controllers working on one job at once. A claim is three steps: a look at the clock, a read, and a
 * conditional write. Between them anything may happen; a controller that has lost its lease goes on until it
 * next writes. Every controller has a clock of its own, and no two of them need to agree.
 */
module LeaseProtocol {
  import opened Prelude
  import opened Plans
  import opened Runner
  import opened RunnerLaws
  import opened Lease

  /** `now` and `seen` are what a claim has read. */
  datatype Proc =
    | Idle
    | Starting(now: real)
    | Reading(seen: Option<Row>, now: real)
    | Running(r: RunState)

  datatype Sys = Sys(row: Option<Row>, procs: map<Owner, Proc>)

  const INIT: Sys := Sys(None, map[])

  /** `Begin` and `Renew` carry what `p` read off its clock, possibly long before the statement takes effect. */
  datatype Action =
    | Begin(p: Owner, now: real)
    | Read(p: Owner)
    | Finish(p: Owner)
    | Do(p: Owner, move: Move)
    | Renew(p: Owner, now: real)
    | Release(p: Owner)
    | Die(p: Owner)

  /** Fixed data of a system: the plan of the job, the rewind limit, the length of a lease. */
  datatype Job = Job(plan: Plan, stepMax: int, ttl: real)

  function At(s: Sys, p: Owner): Proc {
    if p in s.procs then s.procs[p] else Idle
  }

  function Put(s: Sys, p: Owner, proc: Proc): Sys {
    s.(procs := s.procs[p := proc])
  }

  predicate Owns(s: Sys, p: Owner) {
    s.row.Some? && s.row.value.owner == p
  }

  predicate Wins(j: Job, s: Sys, p: Owner) {
    && At(s, p).Reading?
    && (match At(s, p).seen
        case None => s.row.None?
        case Some(seen) => SwapWins(s.row, seen, p, At(s, p).now + j.ttl))
  }

  function Act(j: Job, s: Sys, a: Action): Option<Sys> {
    match a
    case Begin(p, now) => if !At(s, p).Idle? then None else Some(Put(s, p, Starting(now)))
    case Read(p) =>
      if !At(s, p).Starting? then None
      else if s.row.Some? && HeldByOther(s.row.value, p, At(s, p).now) then Some(Put(s, p, Idle))
      else Some(Put(s, p, Reading(s.row, At(s, p).now)))
    case Finish(p) =>
      if !At(s, p).Reading? then None
      else if !Wins(j, s, p) then Some(Put(s, p, Idle))
      else
        var until := At(s, p).now + j.ttl;
        if At(s, p).seen.None? then Some(Put(s.(row := Some(Row(p, until, []))), p, Running(Start([]))))
        else
          var taken := s.row.value.(owner := p, until := until);
          Some(Put(s.(row := Some(taken)), p, Running(Start(At(s, p).seen.value.done))))
    case Do(p, m) =>
      if !At(s, p).Running? || !Declared(j.plan, At(s, p).r, m) || Apply(j.plan, j.stepMax, At(s, p).r, m).None? then None
      else
        var next := Apply(j.plan, j.stepMax, At(s, p).r, m).value;
        if !m.Save? then Some(Put(s, p, Running(next)))
        else if Owns(s, p) then Some(Put(s.(row := Some(s.row.value.(done := next.done))), p, Running(next)))
        else Some(Put(s, p, Running(next.(phase := Over(LeaseGone)))))
    case Renew(p, now) =>
      if !Owns(s, p) then Some(s)
      else Some(s.(row := Some(s.row.value.(until := now + j.ttl))))
    case Release(p) =>
      if !At(s, p).Running? || !At(s, p).r.phase.Over? || At(s, p).r.phase.end.LeaseGone? then None
      else if Owns(s, p) then Some(Put(s.(row := None), p, Idle))
      else Some(Put(s, p, Idle))
    case Die(p) => if At(s, p).Idle? then None else Some(Put(s, p, Idle))
  }

  function Play(j: Job, s: Sys, actions: seq<Action>): Option<Sys>
    decreases |actions|
  {
    if actions == [] then Some(s)
    else
      match Act(j, s, actions[0])
      case None => None
      case Some(next) => Play(j, next, actions[1..])
  }

  // ---------- the stored steps are an initial segment ----------

  ghost predicate Segments(plan: Plan, s: Sys) {
    && (s.row.Some? ==> IsPrefix(plan, s.row.value.done))
    && (forall p :: p in s.procs ==>
          match s.procs[p]
          case Reading(seen, _) => seen.Some? ==> IsPrefix(plan, seen.value.done)
          case Running(r) => Sound(plan, r)
          case _ => true)
  }

  lemma ActKeepsSegments(j: Job, s: Sys, a: Action)
    requires WellFormed(j.plan) && Segments(j.plan, s) && Act(j, s, a).Some?
    ensures Segments(j.plan, Act(j, s, a).value)
  {
    match a {
      case Do(p, m) => MovesKeepSound(j.plan, j.stepMax, At(s, p).r, m);
      case Finish(p) =>
        var found := if At(s, p).seen.Some? then At(s, p).seen.value.done else [];
        StartIsSound(j.plan, found);
      case _ =>
    }
  }

  lemma {:induction false} PlayKeepsSegments(j: Job, s: Sys, actions: seq<Action>)
    requires WellFormed(j.plan) && Segments(j.plan, s) && Play(j, s, actions).Some?
    ensures Segments(j.plan, Play(j, s, actions).value)
    decreases |actions|
  {
    if actions != [] {
      ActKeepsSegments(j, s, actions[0]);
      PlayKeepsSegments(j, Act(j, s, actions[0]).value, actions[1..]);
    }
  }

  /** Under every interleaving the stored steps are an initial segment of the plan's recordable steps. */
  lemma StoredIsAlwaysASegment(j: Job, actions: seq<Action>)
    requires WellFormed(j.plan) && Play(j, INIT, actions).Some? && Play(j, INIT, actions).value.row.Some?
    ensures Play(j, INIT, actions).value.row.value.done <= Recordables(j.plan)
  {
    PlayKeepsSegments(j, INIT, actions);
  }

  // ---------- fencing ----------

  /** None of `p`'s actions changes the row. */
  predicate NeverWrites(j: Job, s: Sys, p: Owner, actions: seq<Action>)
    requires Play(j, s, actions).Some?
    decreases |actions|
  {
    actions == []
    || ((actions[0].p == p ==> Act(j, s, actions[0]).value.row == s.row)
        && NeverWrites(j, Act(j, s, actions[0]).value, p, actions[1..]))
  }

  /**
   * A controller that is no longer the owner never changes the row again, whatever it still does and whoever
   * else acts in between, until it begins a new claim.
   */
  lemma {:induction false} DisplacedNeverWrites(j: Job, s: Sys, p: Owner, actions: seq<Action>)
    requires !Owns(s, p) && !At(s, p).Starting? && !At(s, p).Reading?
    requires Play(j, s, actions).Some? && forall a :: a in actions && a.Begin? ==> a.p != p
    ensures NeverWrites(j, s, p, actions)
    ensures !Owns(Play(j, s, actions).value, p)
    decreases |actions|
  {
    if actions != [] {
      assert actions[0] in actions;
      assert forall a :: a in actions[1..] ==> a in actions;
      DisplacedNeverWrites(j, Act(j, s, actions[0]).value, p, actions[1..]);
    }
  }

  // ---------- a live lease is safe, an expired one is free ----------

  /** What a claim's read makes of the row: another's lease turns it away exactly as long as its time is to come. */
  lemma ReadLooksAtTheTime(j: Job, s: Sys, p: Owner)
    requires At(s, p).Starting?
    ensures var now, next := At(s, p).now, Act(j, s, Read(p));
            && next.Some? && next.value.row == s.row
            && (s.row.Some? && s.row.value.owner != p && now < s.row.value.until ==> At(next.value, p) == Idle)
            && (s.row.Some? && s.row.value.owner != p && s.row.value.until <= now ==> At(next.value, p) == Reading(s.row, now))
            && (s.row.None? || s.row.value.owner == p ==> At(next.value, p) == Reading(s.row, now))
  {
  }

  /** Whoever has read another's lease has looked at the clock after its time. */
  ghost predicate ReadsExpired(s: Sys) {
    forall p :: p in s.procs && s.procs[p].Reading? && s.procs[p].seen.Some? && s.procs[p].seen.value.owner != p ==>
      s.procs[p].seen.value.until <= s.procs[p].now
  }

  lemma {:induction false} PlayKeepsReadsExpired(j: Job, s: Sys, actions: seq<Action>)
    requires ReadsExpired(s) && Play(j, s, actions).Some?
    ensures ReadsExpired(Play(j, s, actions).value)
    decreases |actions|
  {
    if actions != [] {
      ActKeepsReadsExpired(j, s, actions[0]);
      PlayKeepsReadsExpired(j, Act(j, s, actions[0]).value, actions[1..]);
    }
  }

  lemma ActKeepsReadsExpired(j: Job, s: Sys, a: Action)
    requires ReadsExpired(s) && Act(j, s, a).Some?
    ensures ReadsExpired(Act(j, s, a).value)
  {
  }

  /** In any run, whoever takes another's lease has a reading at or past the time that stands in the row it takes. */
  lemma TakesOnlyExpired(j: Job, actions: seq<Action>, p: Owner)
    requires Play(j, INIT, actions).Some?
    requires var s := Play(j, INIT, actions).value; Wins(j, s, p) && s.row.Some? && s.row.value.owner != p
    ensures var s := Play(j, INIT, actions).value;
            && s.row.value.until <= At(s, p).now
            && Row(p, At(s, p).now + j.ttl, s.row.value.done) == Act(j, s, Finish(p)).value.row.value
  {
    PlayKeepsReadsExpired(j, INIT, actions);
  }

  /** All that others read of the clock lies before `bound`, all of `o`'s leases reach it. */
  predicate Ahead(j: Job, s: Sys, o: Owner, bound: real, actions: seq<Action>) {
    && (forall p :: p in s.procs && (s.procs[p].Starting? || s.procs[p].Reading?) ==>
          if p == o then bound <= s.procs[p].now + j.ttl else s.procs[p].now < bound)
    && (forall a :: a in actions && a.Begin? ==> if a.p == o then bound <= a.now + j.ttl else a.now < bound)
    && (forall a :: a in actions && a.Renew? && a.p == o ==> bound <= a.now + j.ttl)
  }

  /**
   * A controller whose leases lie beyond every rival's reading of the clock is never displaced: it owns the row
   * until it releases it itself, whatever anybody does.
   */
  lemma LiveLeaseIsSafe(j: Job, before: seq<Action>, o: Owner, bound: real, actions: seq<Action>)
    requires Play(j, INIT, before).Some? && Play(j, Play(j, INIT, before).value, actions).Some?
    requires var s := Play(j, INIT, before).value;
             Owns(s, o) && bound <= s.row.value.until && Ahead(j, s, o, bound, actions)
    requires Release(o) !in actions
    ensures var last := Play(j, Play(j, INIT, before).value, actions).value;
            Owns(last, o) && bound <= last.row.value.until
  {
    PlayKeepsReadsExpired(j, INIT, before);
    StaysOwner(j, Play(j, INIT, before).value, o, bound, actions);
  }

  lemma {:induction false} StaysOwner(j: Job, s: Sys, o: Owner, bound: real, actions: seq<Action>)
    requires ReadsExpired(s) && Play(j, s, actions).Some? && Release(o) !in actions
    requires Owns(s, o) && bound <= s.row.value.until && Ahead(j, s, o, bound, actions)
    ensures Owns(Play(j, s, actions).value, o) && bound <= Play(j, s, actions).value.row.value.until
    decreases |actions|
  {
    if actions != [] {
      var next := Act(j, s, actions[0]).value;
      assert actions[0] in actions && forall a :: a in actions[1..] ==> a in actions;
      ActKeepsReadsExpired(j, s, actions[0]);
      OwnerAfter(j, s, o, bound, actions[0]);
      StaysOwner(j, next, o, bound, actions[1..]);
    }
  }

  lemma OwnerAfter(j: Job, s: Sys, o: Owner, bound: real, a: Action)
    requires ReadsExpired(s) && Act(j, s, a).Some? && a != Release(o)
    requires Owns(s, o) && bound <= s.row.value.until && Ahead(j, s, o, bound, [a])
    ensures var next := Act(j, s, a).value; Owns(next, o) && bound <= next.row.value.until && Ahead(j, next, o, bound, [])
  {
    assert a in [a];
  }

  // ---------- who can take a lease that was read ----------

  /** The system before every action and after the last. */
  function States(j: Job, s: Sys, actions: seq<Action>): (states: seq<Sys>)
    requires Play(j, s, actions).Some?
    ensures |states| == |actions| + 1 && states[0] == s && states[|actions|] == Play(j, s, actions).value
    ensures forall k :: 0 <= k < |actions| ==> Act(j, states[k], actions[k]) == Some(states[k + 1])
    decreases |actions|
  {
    if actions == [] then [s] else [s] + States(j, Act(j, s, actions[0]).value, actions[1..])
  }

  ghost predicate IsRun(j: Job, states: seq<Sys>, actions: seq<Action>) {
    && |states| == |actions| + 1
    && (forall k :: 0 <= k < |actions| ==> Act(j, states[k], actions[k]) == Some(states[k + 1]))
  }

  /** Owner and expiry of the row. */
  function LeaseOf(row: Option<Row>): Option<(Owner, real)> {
    match row case Some(r) => Some((r.owner, r.until)) case None => None
  }

  /** The action's process takes the lease or extends it. */
  predicate WritesLease(j: Job, s: Sys, a: Action) {
    (a.Finish? && Wins(j, s, a.p)) || (a.Renew? && Owns(s, a.p))
  }

  /** The lease it writes, from what it has read off its clock. */
  function WrittenLease(j: Job, s: Sys, a: Action): (Owner, real)
    requires WritesLease(j, s, a)
  {
    (a.p, (if a.Finish? then At(s, a.p).now else a.now) + j.ttl)
  }

  predicate RemovesRow(s: Sys, a: Action) {
    a.Release? && Owns(s, a.p)
  }

  /** From action `i` up to `n` nobody writes the lease, not even with the values it has, and nobody removes the row. */
  ghost predicate Untouched(j: Job, states: seq<Sys>, actions: seq<Action>, i: int, n: nat)
    requires |states| == |actions| + 1 && n <= |actions|
  {
    forall k :: 0 <= k && i <= k < n ==> !WritesLease(j, states[k], actions[k]) && !RemovesRow(states[k], actions[k])
  }

  /** Action `i` writes this very lease, and nobody touches it after that. */
  ghost predicate LastWrote(j: Job, states: seq<Sys>, actions: seq<Action>, lease: (Owner, real), i: nat, n: nat)
    requires |states| == |actions| + 1 && n <= |actions|
  {
    && i < n && WritesLease(j, states[i], actions[i]) && WrittenLease(j, states[i], actions[i]) == lease
    && Untouched(j, states, actions, i + 1, n)
  }

  lemma LeaseAfter(j: Job, s: Sys, a: Action)
    requires Act(j, s, a).Some?
    ensures LeaseOf(Act(j, s, a).value.row) ==
            if WritesLease(j, s, a) then Some(WrittenLease(j, s, a))
            else if RemovesRow(s, a) then None
            else LeaseOf(s.row)
  {
  }

  /** The lease after `n` actions is the one last written, unless it was removed since. */
  lemma {:induction false} LeaseComesFrom(j: Job, states: seq<Sys>, actions: seq<Action>, n: nat)
    requires IsRun(j, states, actions) && n <= |actions|
    ensures Untouched(j, states, actions, 0, n) ==> LeaseOf(states[n].row) == LeaseOf(states[0].row)
    ensures states[n].row.Some? && !Untouched(j, states, actions, 0, n) ==>
              exists i: nat :: LastWrote(j, states, actions, LeaseOf(states[n].row).value, i, n)
    ensures forall i: nat, lease :: LastWrote(j, states, actions, lease, i, n) ==> LeaseOf(states[n].row) == Some(lease)
  {
    if n > 0 {
      var s, a := states[n - 1], actions[n - 1];
      assert Act(j, s, a) == Some(states[n]);
      LeaseAfter(j, s, a);
      LeaseComesFrom(j, states, actions, n - 1);
      if WritesLease(j, s, a) {
        assert LastWrote(j, states, actions, WrittenLease(j, s, a), n - 1, n);
      } else if states[n].row.Some? && !Untouched(j, states, actions, 0, n) {
        assert !Untouched(j, states, actions, 0, n - 1);
        var i: nat :| LastWrote(j, states, actions, LeaseOf(states[n - 1].row).value, i, n - 1);
        assert LastWrote(j, states, actions, LeaseOf(states[n].row).value, i, n);
      }
      forall i: nat, lease | LastWrote(j, states, actions, lease, i, n) ensures LeaseOf(states[n].row) == Some(lease) {
        if i < n - 1 { assert LastWrote(j, states, actions, lease, i, n - 1); }
      }
    }
  }

  /** `p` has read somebody's lease, its own or another's, and has not yet tried to take it. */
  predicate Contends(s: Sys, p: Owner) {
    At(s, p).Reading? && At(s, p).seen.Some?
  }

  /** The lease it would take is the very lease it has read, so that the swap changes nothing and does not count. */
  predicate SwapsForTheSame(j: Job, s: Sys, p: Owner)
    requires Contends(s, p)
  {
    LeaseOf(At(s, p).seen) == Some((p, At(s, p).now + j.ttl))
  }

  lemma SwapAgainst(j: Job, s: Sys, q: Owner, claim: Proc)
    requires At(s, q) == claim && claim.Reading? && claim.seen.Some?
    ensures Wins(j, s, q) <==>
              && (claim.seen.value.owner != q || claim.seen.value.until != claim.now + j.ttl)
              && LeaseOf(s.row) == Some((claim.seen.value.owner, claim.seen.value.until))
  {
  }

  lemma LeaseIsExactly(j: Job, states: seq<Sys>, actions: seq<Action>, lease: (Owner, real))
    requires IsRun(j, states, actions)
    ensures LeaseOf(states[|actions|].row) == Some(lease) <==>
              || (LeaseOf(states[0].row) == Some(lease) && Untouched(j, states, actions, 0, |actions|))
              || exists i: nat :: LastWrote(j, states, actions, lease, i, |actions|)
  {
    LeaseComesFrom(j, states, actions, |actions|);
    if LeaseOf(states[|actions|].row) == Some(lease) && !Untouched(j, states, actions, 0, |actions|) {
      var i: nat :| LastWrote(j, states, actions, LeaseOf(states[|actions|].row).value, i, |actions|);
      assert LastWrote(j, states, actions, lease, i, |actions|);
    }
  }

  /**
   * When a claim wins, after any actions of the others: exactly when the lease it read is untouched, or was
   * written anew by its own owner, from the same reading of the clock, as the last thing that happened to it.
   */
  lemma ClaimWinsExactly(j: Job, s: Sys, q: Owner, actions: seq<Action>)
    requires Play(j, s, actions).Some? && Contends(s, q) && At(Play(j, s, actions).value, q) == At(s, q)
    ensures var states, seen, n := States(j, s, actions), LeaseOf(At(s, q).seen), |actions|;
            Wins(j, states[n], q) <==>
              && !SwapsForTheSame(j, s, q)
              && ((LeaseOf(s.row) == seen && Untouched(j, states, actions, 0, n))
                  || exists i: nat :: LastWrote(j, states, actions, seen.value, i, n))
  {
    var states := States(j, s, actions);
    var claim := At(s, q);
    SwapAgainst(j, states[|actions|], q, claim);
    LeaseIsExactly(j, states, actions, (claim.seen.value.owner, claim.seen.value.until));
  }

  /**
   * Two winners of what was read before the first of them won. After `p` has won, `q` wins as well if and only if
   * the last thing that happened to the lease is that the owner of the lease `q` has read wrote that very lease
   * again, by a claim or a renewal from the same reading of its clock.
   */
  lemma SecondWinnerExactly(j: Job, s: Sys, p: Owner, q: Owner, between: seq<Action>)
    requires p != q && Wins(j, s, p) && Contends(s, q) && Play(j, s, [Finish(p)] + between).Some?
    requires At(Play(j, s, [Finish(p)] + between).value, q) == At(s, q)
    ensures var actions := [Finish(p)] + between;
            var states := States(j, s, actions);
            Wins(j, states[|actions|], q) <==>
              && !SwapsForTheSame(j, s, q)
              && exists i: nat :: LastWrote(j, states, actions, LeaseOf(At(s, q).seen).value, i, |actions|)
  {
    var actions := [Finish(p)] + between;
    ClaimWinsExactly(j, s, q, actions);
    assert WritesLease(j, States(j, s, actions)[0], actions[0]);
  }

  // ---------- when no owner uses a reading twice ----------

  /** The owner of that lease has no claim under way from the reading it was written from, and never reads it again. */
  predicate ReadsNoMore(j: Job, s: Sys, lease: (Owner, real), actions: seq<Action>) {
    && (At(s, lease.0).Starting? || At(s, lease.0).Reading? ==> At(s, lease.0).now + j.ttl != lease.1)
    && (forall a :: a in actions && (a.Begin? || a.Renew?) && a.p == lease.0 ==> a.now + j.ttl != lease.1)
  }

  lemma {:induction false} NeverWrittenAgain(j: Job, states: seq<Sys>, actions: seq<Action>, lease: (Owner, real), k: nat)
    requires IsRun(j, states, actions) && k < |actions| && ReadsNoMore(j, states[0], lease, actions)
    ensures WritesLease(j, states[k], actions[k]) ==> WrittenLease(j, states[k], actions[k]) != lease
  {
    PendingStaysOther(j, states, actions, lease, k);
    assert actions[k] in actions;
  }

  lemma {:induction false} PendingStaysOther(j: Job, states: seq<Sys>, actions: seq<Action>, lease: (Owner, real), k: nat)
    requires IsRun(j, states, actions) && k <= |actions| && ReadsNoMore(j, states[0], lease, actions)
    ensures var c := At(states[k], lease.0); c.Starting? || c.Reading? ==> c.now + j.ttl != lease.1
  {
    if k > 0 {
      PendingStaysOther(j, states, actions, lease, k - 1);
      assert actions[k - 1] in actions;
      assert Act(j, states[k - 1], actions[k - 1]) == Some(states[k]);
    }
  }

  /**
   * Of the controllers that have read a lease at most one takes it, the lease's own owner included, if that owner
   * does not use the one reading again from which the lease was written: once anybody has won, a rival whose
   * read dates from before cannot win, however much later it tries and whatever happens to the row meanwhile.
   */
  lemma AtMostOneWinner(j: Job, s: Sys, p: Owner, q: Owner, between: seq<Action>)
    requires p != q && Wins(j, s, p) && Contends(s, q) && Play(j, s, [Finish(p)] + between).Some?
    requires At(Play(j, s, [Finish(p)] + between).value, q) == At(s, q)
    requires ReadsNoMore(j, s, LeaseOf(At(s, q).seen).value, [Finish(p)] + between)
    ensures !Wins(j, Play(j, s, [Finish(p)] + between).value, q)
  {
    var actions, lease := [Finish(p)] + between, LeaseOf(At(s, q).seen).value;
    var states := States(j, s, actions);
    SecondWinnerExactly(j, s, p, q, between);
    forall i: nat | i < |actions| ensures !LastWrote(j, states, actions, lease, i, |actions|) {
      NeverWrittenAgain(j, states, actions, lease, i);
    }
  }

  /** Then a contender that wins takes exactly the lease it read: nobody has written or removed it since. */
  lemma WinnerTookWhatItRead(j: Job, s: Sys, q: Owner, actions: seq<Action>)
    requires Play(j, s, actions).Some? && Contends(s, q) && At(Play(j, s, actions).value, q) == At(s, q)
    requires ReadsNoMore(j, s, LeaseOf(At(s, q).seen).value, actions) && Wins(j, Play(j, s, actions).value, q)
    ensures LeaseOf(s.row) == LeaseOf(At(s, q).seen)
    ensures Untouched(j, States(j, s, actions), actions, 0, |actions|)
  {
    var states, lease := States(j, s, actions), LeaseOf(At(s, q).seen).value;
    ClaimWinsExactly(j, s, q, actions);
    forall i: nat | i < |actions| ensures !LastWrote(j, states, actions, lease, i, |actions|) {
      NeverWrittenAgain(j, states, actions, lease, i);
    }
  }

  lemma {:induction false} PlayJoin(j: Job, s: Sys, a: seq<Action>, b: seq<Action>)
    requires Play(j, s, a).Some?
    ensures Play(j, s, a + b) == Play(j, Play(j, s, a).value, b)
    decreases |a|
  {
    if a == [] {
      assert a + b == b;
    } else {
      assert (a + b)[0] == a[0] && (a + b)[1..] == a[1..] + b;
      PlayJoin(j, Act(j, s, a[0]).value, a[1..], b);
    }
  }

  // ---------- what a claim hands on ----------

  /** The list an action writes to the row: its owner records one, and a row that is inserted starts with none. */
  function ListWritten(j: Job, s: Sys, a: Action): Option<Plan> {
    match a
    case Finish(p) => if Wins(j, s, p) && At(s, p).seen.None? then Some([]) else None
    case Do(p, m) => if m.Save? && Owns(s, p) && At(s, p).Running? then Some(At(s, p).r.done) else None
    case _ => None
  }

  ghost predicate NoneListed(j: Job, states: seq<Sys>, actions: seq<Action>, i: int, n: nat)
    requires |states| == |actions| + 1 && n <= |actions|
  {
    forall k :: 0 <= k && i <= k < n ==> ListWritten(j, states[k], actions[k]).None?
  }

  /** Action `i` is the last that writes a list, and it writes this one. */
  ghost predicate LastListed(j: Job, states: seq<Sys>, actions: seq<Action>, done: Plan, i: nat, n: nat)
    requires |states| == |actions| + 1 && n <= |actions|
  {
    i < n && ListWritten(j, states[i], actions[i]) == Some(done) && NoneListed(j, states, actions, i + 1, n)
  }

  lemma ListAfter(j: Job, s: Sys, a: Action)
    requires Act(j, s, a).Some? && Act(j, s, a).value.row.Some?
    ensures match ListWritten(j, s, a)
            case Some(done) => Act(j, s, a).value.row.value.done == done
            case None => s.row.Some? && Act(j, s, a).value.row.value.done == s.row.value.done
  {
  }

  /** The list stored after `n` actions is the one last written. */
  lemma {:induction false} ListComesFrom(j: Job, states: seq<Sys>, actions: seq<Action>, n: nat)
    requires IsRun(j, states, actions) && n <= |actions| && states[n].row.Some?
    ensures if NoneListed(j, states, actions, 0, n) then
              states[0].row.Some? && states[n].row.value.done == states[0].row.value.done
            else exists i: nat :: LastListed(j, states, actions, states[n].row.value.done, i, n)
    ensures forall i: nat, done :: LastListed(j, states, actions, done, i, n) ==> states[n].row.value.done == done
  {
    if n > 0 {
      var s, a := states[n - 1], actions[n - 1];
      assert Act(j, s, a) == Some(states[n]);
      ListAfter(j, s, a);
      if ListWritten(j, s, a).Some? {
        assert LastListed(j, states, actions, states[n].row.value.done, n - 1, n);
      } else {
        ListComesFrom(j, states, actions, n - 1);
        if !NoneListed(j, states, actions, 0, n) {
          var i: nat :| LastListed(j, states, actions, s.row.value.done, i, n - 1);
          assert LastListed(j, states, actions, states[n].row.value.done, i, n);
        }
        forall i: nat, done | LastListed(j, states, actions, done, i, n) ensures states[n].row.value.done == done {
          assert LastListed(j, states, actions, done, i, n - 1);
        }
      }
    }
  }

  /** What the winner of a claim starts from is what is stored when it has won. */
  predicate ResumesExactly(j: Job, s: Sys, p: Owner) {
    var s' := Act(j, s, Finish(p));
    s'.Some? && s'.value.row.Some? && At(s'.value, p) == Running(Start(s'.value.row.value.done))
  }

  /**
   * A winning claim of `p`, whose read is followed by `between`. It resumes from exactly what is stored if and
   * only if no list was written in between, or the last one written is the very list `p` has read; an inserted
   * row counts as an empty list. A claim that found no row is always exact.
   */
  lemma ClaimIsExactWhen(j: Job, s: Sys, p: Owner, between: seq<Action>)
    requires At(s, p).Reading? && At(s, p).seen == s.row && Play(j, s, between).Some?
    requires At(Play(j, s, between).value, p) == At(s, p) && Wins(j, Play(j, s, between).value, p)
    ensures var states, n := States(j, s, between), |between|;
            match s.row
            case None => ResumesExactly(j, states[n], p)
            case Some(seen) =>
              ResumesExactly(j, states[n], p) <==>
                (NoneListed(j, states, between, 0, n) || exists i: nat :: LastListed(j, states, between, seen.done, i, n))
  {
    if s.row.Some? {
      ListComesFrom(j, States(j, s, between), between, |between|);
    }
  }

  /**
   * If the owner of the lease that was read does not use its reading again, nobody else can make the claim
   * inexact, and it can only by recording a list.
   */
  lemma OnlyTheSeenOwnerMisleads(j: Job, s: Sys, p: Owner, between: seq<Action>, k: nat)
    requires Contends(s, p) && At(s, p).seen == s.row && Play(j, s, between).Some?
    requires At(Play(j, s, between).value, p) == At(s, p) && Wins(j, Play(j, s, between).value, p)
    requires ReadsNoMore(j, s, LeaseOf(s.row).value, between)
    ensures k < |between| && ListWritten(j, States(j, s, between)[k], between[k]).Some? ==>
              between[k] == Do(s.row.value.owner, Save)
    ensures Do(s.row.value.owner, Save) !in between ==> ResumesExactly(j, Play(j, s, between).value, p)
  {
    var states := States(j, s, between);
    WinnerTookWhatItRead(j, s, p, between);
    forall i | 0 <= i < |between| && ListWritten(j, states[i], between[i]).Some?
      ensures between[i] == Do(s.row.value.owner, Save) && between[i] in between
    {
      assert Untouched(j, states, between, 0, i);
      LeaseComesFrom(j, states, between, i);
    }
    ClaimIsExactWhen(j, s, p, between);
  }

  // ---------- what a claim does not promise ----------

  lemma {:induction false} PlayStates(j: Job, actions: seq<Action>, states: seq<Sys>)
    requires |states| == |actions| + 1
    requires forall k :: 0 <= k < |actions| ==> Act(j, states[k], actions[k]) == Some(states[k + 1])
    ensures Play(j, states[0], actions) == Some(states[|actions|])
    decreases |actions|
  {
    if actions != [] {
      assert Act(j, states[0], actions[0]) == Some(states[1]);
      PlayStates(j, actions[1..], states[1..]);
    }
  }

  /** Controller 1 holds a lease until `ttl`, and controllers 2 and 3 have read it and found it expired. */
  lemma TwoHaveRead(j: Job) returns (before: seq<Action>, s: Sys)
    ensures Play(j, INIT, before) == Some(s)
    ensures s.row == Some(Row(1, 0.0 + j.ttl, [])) && At(s, 1) == Running(Start([]))
    ensures At(s, 2) == At(s, 3) == Reading(s.row, j.ttl)
  {
    var row1 := Row(1, 0.0 + j.ttl, []);
    var s1 := Put(INIT, 1, Starting(0.0));
    var s2 := Put(s1, 1, Reading(None, 0.0));
    var s3 := Act(j, s2, Finish(1)).value;
    assert s3.row == Some(row1) && At(s3, 1) == Running(Start([]));
    var s4 := Put(s3, 2, Starting(j.ttl));
    var s5 := Put(s4, 2, Reading(Some(row1), j.ttl));
    var s6 := Put(s5, 3, Starting(j.ttl));
    s := Put(s6, 3, Reading(Some(row1), j.ttl));
    before := [Begin(1, 0.0), Read(1), Finish(1), Begin(2, j.ttl), Read(2), Begin(3, j.ttl), Read(3)];
    PlayStates(j, before, [INIT, s1, s2, s3, s4, s5, s6, s]);
  }

  /** Controller 2 takes the lease and gives it back. */
  lemma TakenAndReleased(j: Job, s: Sys) returns (gone: Sys)
    requires s.row == Some(Row(1, 0.0 + j.ttl, [])) && At(s, 2) == Reading(s.row, j.ttl)
    ensures Wins(j, s, 2) && Play(j, s, [Finish(2), Do(2, Stop(FailedEnd)), Release(2)]) == Some(gone)
    ensures gone.row == None && At(gone, 1) == At(s, 1) && At(gone, 3) == At(s, 3)
  {
    var s1 := Act(j, s, Finish(2)).value;
    assert s1.row == Some(Row(2, j.ttl + j.ttl, [])) && At(s1, 2) == Running(Start([]));
    var s2 := Act(j, s1, Do(2, Stop(FailedEnd))).value;
    gone := Act(j, s2, Release(2)).value;
    PlayStates(j, [Finish(2), Do(2, Stop(FailedEnd)), Release(2)], [s, s1, s2, gone]);
  }

  /** Controller 1 claims an absent row with the reading it had used before. */
  lemma LeaseReturns(j: Job, s: Sys) returns (last: Sys)
    requires s.row == None && At(s, 1) == Idle
    ensures Play(j, s, [Begin(1, 0.0), Read(1), Finish(1)]) == Some(last)
    ensures last.row == Some(Row(1, 0.0 + j.ttl, [])) && forall p :: p != 1 ==> At(last, p) == At(s, p)
  {
    var s1 := Put(s, 1, Starting(0.0));
    var s2 := Put(s1, 1, Reading(None, 0.0));
    last := Act(j, s2, Finish(1)).value;
    PlayStates(j, [Begin(1, 0.0), Read(1), Finish(1)], [s, s1, s2, last]);
  }

  /**
   * The condition is not idle: when the owner of the lease claims again and reads the very time it read before,
   * two controllers that have read that lease both win.
   */
  lemma RepeatedReadingLetsTwoWin(j: Job) returns (before: seq<Action>, between: seq<Action>)
    ensures Play(j, INIT, before).Some? && Play(j, INIT, before + [Finish(2)] + between).Some?
    ensures var s := Play(j, INIT, before).value;
            && Contends(s, 2) && Contends(s, 3) && At(s, 2).seen == At(s, 3).seen && Wins(j, s, 2)
            && Wins(j, Play(j, INIT, before + [Finish(2)] + between).value, 3)
  {
    var s: Sys;
    before, s := TwoHaveRead(j);
    var gone := TakenAndReleased(j, s);
    var idle := Act(j, gone, Die(1)).value;
    PlayStates(j, [Die(1)], [gone, idle]);
    var last := LeaseReturns(j, idle);
    var released: seq<Action> := [Finish(2), Do(2, Stop(FailedEnd)), Release(2)];
    var again: seq<Action> := [Begin(1, 0.0), Read(1), Finish(1)];
    between := [Do(2, Stop(FailedEnd)), Release(2)] + ([Die(1)] + again);
    assert [Finish(2)] + between == released + ([Die(1)] + again);
    PlayJoin(j, gone, [Die(1)], again);
    PlayJoin(j, s, released, [Die(1)] + again);
    PlayJoin(j, INIT, before, [Finish(2)] + between);
    assert before + [Finish(2)] + between == before + ([Finish(2)] + between);
  }

  /** Controller 1 has claimed an absent row. */
  function Claimed(j: Job): Sys {
    Put(INIT.(row := Some(Row(1, 0.0 + j.ttl, []))), 1, Running(Start([])))
  }

  lemma FirstClaim(j: Job)
    ensures Play(j, INIT, [Begin(1, 0.0), Read(1), Finish(1)]) == Some(Claimed(j))
  {
    var s1 := Put(INIT, 1, Starting(0.0));
    var s2 := Put(s1, 1, Reading(None, 0.0));
    var s3 := Act(j, s2, Finish(1)).value;
    assert s3.procs == Claimed(j).procs;
    PlayStates(j, [Begin(1, 0.0), Read(1), Finish(1)], [INIT, s1, s2, s3]);
  }

  /** It records the first step. */
  lemma FirstRecord(j: Job, s: Sys, row: Row)
    requires |j.plan| > 0 && Recordable(j.plan[0]) && row.owner == 1 && s.row == Some(row) && At(s, 1) == Running(Start([]))
    ensures var s' := Play(j, s, [Do(1, Complete(j.plan[0])), Do(1, Save)]);
            && s'.Some? && s'.value.row == Some(row.(done := [j.plan[0]])) && At(s'.value, 2) == At(s, 2)
            && At(s'.value, 1) == Running(RunState(1, [j.plan[0]], 0, Walking))
  {
    var first := j.plan[0];
    var s1 := Act(j, s, Do(1, Complete(first))).value;
    assert [] + [first] == [first];
    assert At(s1, 1) == Running(RunState(1, [first], 0, Saving));
    var s2 := Act(j, s1, Do(1, Save)).value;
    PlayStates(j, [Do(1, Complete(first)), Do(1, Save)], [s, s1, s2]);
  }

  /**
   * A claim may resume from less than is stored: controller 1 records a step after controller 2 has read the
   * row and before it swaps. The read takes no lock, so the list it hands on is already out of date.
   */
  lemma ClaimMayLag(j: Job) returns (actions: seq<Action>)
    requires |j.plan| > 0 && Recordable(j.plan[0])
    ensures Play(j, INIT, actions).Some?
    ensures var s := Play(j, INIT, actions).value;
            && Owns(s, 2) && s.row.value.done == [j.plan[0]]
            && At(s, 2) == Running(Start([]))
  {
    FirstClaim(j);
    var s := Claimed(j);
    var s1 := Put(s, 2, Starting(j.ttl));
    var s2 := Put(s1, 2, Reading(s.row, j.ttl));
    var look: seq<Action> := [Begin(2, j.ttl), Read(2)];
    PlayStates(j, look, [s, s1, s2]);
    FirstRecord(j, s2, s.row.value);
    var record: seq<Action> := [Do(1, Complete(j.plan[0])), Do(1, Save)];
    var s3 := Play(j, s2, record).value;
    var s4 := Act(j, s3, Finish(2)).value;
    PlayStates(j, [Finish(2)], [s3, s4]);
    actions := Chain(j, [Begin(1, 0.0), Read(1), Finish(1)], look, record, [Finish(2)]);
  }

  /**
   * It may also resume from more than is stored: controller 2 reads the row, controller 1 then undoes the step,
   * goes back and records it. Controller 2 skips a step whose work is gone.
   */
  lemma ClaimMayRunAhead(j: Job) returns (actions: seq<Action>)
    requires |j.plan| > 1 && j.stepMax >= 2 && Recordable(j.plan[0])
    requires !CountsAsDone([j.plan[0]], j.plan[1]) && RestartPoint(j.plan[1]) == Some(j.plan[0])
    ensures Play(j, INIT, actions).Some?
    ensures var s := Play(j, INIT, actions).value;
            && Owns(s, 2) && s.row.value.done == []
            && At(s, 2) == Running(Start([j.plan[0]]))
  {
    var head, s := ReadAfterFirstRecord(j);
    var s1, back := RecordedRewind(j, s);
    var s2 := Act(j, s1, Finish(2)).value;
    PlayStates(j, [Finish(2)], [s1, s2]);
    PlayJoin(j, s, back, [Finish(2)]);
    PlayJoin(j, INIT, head, back + [Finish(2)]);
    actions := head + (back + [Finish(2)]);
  }

  /** Controller 1 has done and recorded the first step, and controller 2 has read that and found it expired. */
  lemma ReadAfterFirstRecord(j: Job) returns (actions: seq<Action>, s: Sys)
    requires |j.plan| > 0 && Recordable(j.plan[0])
    ensures Play(j, INIT, actions) == Some(s) && s.row == Some(Row(1, 0.0 + j.ttl, [j.plan[0]]))
    ensures At(s, 1) == Running(RunState(1, [j.plan[0]], 0, Walking)) && At(s, 2) == Reading(s.row, j.ttl)
  {
    FirstClaim(j);
    FirstRecord(j, Claimed(j), Claimed(j).row.value);
    var record: seq<Action> := [Do(1, Complete(j.plan[0])), Do(1, Save)];
    var s1 := Play(j, Claimed(j), record).value;
    var s2 := Put(s1, 2, Starting(j.ttl));
    s := Put(s2, 2, Reading(s1.row, j.ttl));
    PlayStates(j, [Begin(2, j.ttl), Read(2)], [s1, s2, s]);
    PlayStates(j, [], [s]);
    actions := Chain(j, [Begin(1, 0.0), Read(1), Finish(1)], record, [Begin(2, j.ttl), Read(2)], []);
  }

  /**
   * And without any record: controller 2 reads the row, controller 1 ends the job, claims it again and reads the
   * very time it read before. Controller 2 takes the new, empty row for the one it has read.
   */
  lemma ReturnedLeaseMisleads(j: Job) returns (head: seq<Action>, between: seq<Action>)
    requires |j.plan| > 0 && Recordable(j.plan[0])
    ensures Play(j, INIT, head).Some? && Play(j, Play(j, INIT, head).value, between).Some?
    ensures var s := Play(j, INIT, head).value;
            var last := Play(j, s, between).value;
            && Contends(s, 2) && At(s, 2).seen == s.row && At(last, 2) == At(s, 2)
            && (forall p :: Do(p, Save) !in between)
            && Wins(j, last, 2) && !ResumesExactly(j, last, 2)
  {
    var s: Sys;
    head, s := ReadAfterFirstRecord(j);
    var s1 := Act(j, s, Do(1, Stop(FailedEnd))).value;
    var s2 := Act(j, s1, Release(1)).value;
    PlayStates(j, [Do(1, Stop(FailedEnd)), Release(1)], [s, s1, s2]);
    var last := LeaseReturns(j, s2);
    between := [Do(1, Stop(FailedEnd)), Release(1)] + [Begin(1, 0.0), Read(1), Finish(1)];
    PlayJoin(j, s, [Do(1, Stop(FailedEnd)), Release(1)], [Begin(1, 0.0), Read(1), Finish(1)]);
  }

  lemma RecordedRewind(j: Job, s: Sys) returns (s': Sys, back: seq<Action>)
    requires |j.plan| > 1 && j.stepMax >= 2 && Owns(s, 1)
    requires !CountsAsDone([j.plan[0]], j.plan[1]) && RestartPoint(j.plan[1]) == Some(j.plan[0])
    requires At(s, 1) == Running(RunState(1, [j.plan[0]], 0, Walking))
    ensures Play(j, s, back) == Some(s') && s'.row == Some(s.row.value.(done := [])) && At(s', 2) == At(s, 2)
  {
    var first := j.plan[0];
    assert IndexOf(j.plan, first) == 0 && first in j.plan[0..];
    assert Without([first], j.plan[0..]) == Without([first][1..], j.plan[0..]) == [];
    var s1 := Act(j, s, Do(1, GoBack(first))).value;
    assert At(s1, 1) == Running(RunState(0, [], 1, Saving));
    s' := Act(j, s1, Do(1, Save)).value;
    back := [Do(1, GoBack(first)), Do(1, Save)];
    PlayStates(j, back, [s, s1, s']);
  }

  /** Four runs one after the other. */
  lemma Chain(j: Job, a: seq<Action>, b: seq<Action>, c: seq<Action>, d: seq<Action>) returns (all: seq<Action>)
    requires Play(j, INIT, a).Some? && Play(j, Play(j, INIT, a).value, b).Some?
    requires Play(j, Play(j, Play(j, INIT, a).value, b).value, c).Some?
    ensures Play(j, INIT, all) == Play(j, Play(j, Play(j, Play(j, INIT, a).value, b).value, c).value, d)
  {
    all := a + (b + (c + d));
    PlayJoin(j, INIT, a, b + (c + d));
    PlayJoin(j, Play(j, INIT, a).value, b, c + d);
    PlayJoin(j, Play(j, Play(j, INIT, a).value, b).value, c, d);
  }
}
