/**
 * Any number of reconcilers at once, none aware of the others, while the ledger is written, the NAS catches up
 * user by user, and clients open contexts. Every read a reconciler makes is a step of its own.
 */
module NasProtocol {
  import opened Prelude
  import opened NasCache

  type ProcId = int

  /** How far a reconciler has come; `mtime` is the ledger's as it read it, `left` the users still to be asked. */
  datatype Proc =
    | HasMtime(mtime: int)
    | PastGate(mtime: int)
    | HasAccounts(mtime: int, accounts: seq<User>)
    | HasWanted(mtime: int, wanted: map<User, set<Gid>>)
    | Asking(mtime: int, wanted: map<User, set<Gid>>, known: set<Gid>, left: set<User>)
    | Flushed(mtime: int)

  /**
   * `clock` counts steps. `agreed` gives for a user when, after the ledger's last change, the NAS was first in
   * agreement with it about him.
   */
  datatype Sys = Sys(
    ledger: Ledger,
    mtime: int,
    recorded: int,
    nas: View,
    contexts: map<int, Context>,
    procs: map<ProcId, Proc>,
    clock: nat,
    agreed: map<User, nat>)

  datatype Action =
    | Write(ledger: Ledger, advance: int)
    | Refresh(nas: View)
    | Pin(c: int, user: User)
    | Expire(c: int)
    | ReadMtime(p: ProcId)
    | ReadState(p: ProcId)
    | ReadAccounts(p: ProcId)
    | ReadGroups(p: ProcId)
    | ReadKnown(p: ProcId)
    | Ask(p: ProcId, user: User)
    | Flush(p: ProcId)
    | WriteState(p: ProcId)
    | Drop(p: ProcId)

  function WantedNow(b: Band, s: Sys): map<User, set<Gid>> {
    Wanted(b, s.ledger.accounts, s.ledger.groups)
  }

  predicate AgreesNow(b: Band, s: Sys, u: User) {
    u in WantedNow(b, s) && Agrees(s.nas, WantedNow(b, s), Known(b, s.ledger.groups), u)
  }

  /** Notes the users about whom the NAS agrees for the first time, and lets the clock go on. */
  function Note(b: Band, s: Sys): Sys {
    var now := s.(clock := s.clock + 1);
    now.(agreed := map u | u in WantedNow(b, s) && (u in s.agreed || AgreesNow(b, s, u)) ::
                     if u in s.agreed then s.agreed[u] else now.clock)
  }

  function Go(s: Sys, p: ProcId, proc: Proc): Sys {
    s.(procs := s.procs[p := proc])
  }

  function Step(b: Band, s: Sys, a: Action): Option<Sys> {
    match a
    case Write(ledger, advance) => Some(s.(ledger := ledger, mtime := s.mtime + advance, agreed := map[]))
    case Refresh(nas) => Some(s.(nas := nas))
    case Pin(c, user) =>
      if c in s.contexts then None
      else Some(s.(contexts := s.contexts[c := Context(user, if user in s.nas then s.nas[user] else {}, s.clock)]))
    case Expire(c) => Some(s.(contexts := s.contexts - {c}))
    case ReadMtime(p) => if p in s.procs then None else Some(Go(s, p, HasMtime(s.mtime)))
    case _ =>
      if a.p !in s.procs then None else Advance(b, s, a.p, s.procs[a.p], a)
  }

  function Advance(b: Band, s: Sys, p: ProcId, proc: Proc, a: Action): Option<Sys> {
    match (proc, a)
    case (_, Drop(_)) => Some(s.(procs := s.procs - {p}))
    case (HasMtime(m), ReadState(_)) =>
      if s.recorded >= m then Some(s.(procs := s.procs - {p})) else Some(Go(s, p, PastGate(m)))
    case (PastGate(m), ReadAccounts(_)) => Some(Go(s, p, HasAccounts(m, s.ledger.accounts)))
    case (HasAccounts(m, accounts), ReadGroups(_)) => Some(Go(s, p, HasWanted(m, Wanted(b, accounts, s.ledger.groups))))
    case (HasWanted(m, wanted), ReadKnown(_)) => Some(Go(s, p, Asking(m, wanted, Known(b, s.ledger.groups), wanted.Keys)))
    case (Asking(m, wanted, known, left), Ask(_, user)) =>
      if user !in left || user !in wanted then None
      else if Agrees(s.nas, wanted, known, user) then Some(Go(s, p, Asking(m, wanted, known, left - {user})))
      else Some(s.(procs := s.procs - {p}))
    case (Asking(m, wanted, known, left), Flush(_)) =>
      if left != {} then None else Some(Go(s, p, Flushed(m)).(contexts := map[]))
    case (Flushed(m), WriteState(_)) => Some(s.(recorded := m, procs := s.procs - {p}))
    case _ => None
  }

  function Act(b: Band, s: Sys, a: Action): Option<Sys> {
    match Step(b, s, a)
    case None => None
    case Some(next) => Some(Note(b, next))
  }

  function Play(b: Band, s: Sys, actions: seq<Action>): Option<Sys>
    decreases |actions|
  {
    if actions == [] then Some(s)
    else
      match Act(b, s, actions[0])
      case None => None
      case Some(next) => Play(b, next, actions[1..])
  }

  // ---------- which writes may mislead ----------

  /** A reconciler that has read the accounts, and can still find the NAS in agreement with what it has read. */
  predicate Committed(b: Band, proc: Proc) {
    match proc
    case HasMtime(_) => false
    case PastGate(_) => false
    case HasAccounts(_, _) => true
    case HasWanted(_, wanted) => forall u :: u in wanted ==> forall g :: g in wanted[u] ==> Shared(b, g)
    case Asking(_, wanted, known, left) => forall u :: u in left ==> u in wanted && wanted[u] <= known
    case Flushed(_) => true
  }

  /**
   * A write that leaves the ledger with this modification time may pass for one that a flush has covered: the
   * time is not beyond the recorded one, or not beyond that of a reconciler that works from the old content.
   */
  predicate MayMislead(b: Band, s: Sys, mtime: int) {
    s.recorded >= mtime || exists p :: p in s.procs && s.procs[p].mtime >= mtime && Committed(b, s.procs[p])
  }

  /** No write of the run may mislead. */
  predicate NoneMisleads(b: Band, s: Sys, actions: seq<Action>)
    requires Play(b, s, actions).Some?
    decreases |actions|
  {
    actions == []
    || ((actions[0].Write? ==> !MayMislead(b, s, s.mtime + actions[0].advance))
        && NoneMisleads(b, Act(b, s, actions[0]).value, actions[1..]))
  }

  // ---------- the invariant ----------

  /** The NAS has agreed about every user of the ledger, and no context of theirs is older than that. */
  ghost predicate Settled(b: Band, s: Sys) {
    && (forall u :: u in WantedNow(b, s) ==> u in s.agreed)
    && (forall c :: c in s.contexts && s.contexts[c].user in WantedNow(b, s) ==>
          s.agreed[s.contexts[c].user] <= s.contexts[c].at)
  }

  /**
   * What a reconciler that read the present modification time knows of the present ledger. An agreement it has
   * just heard of is noted at the end of the step, `noted` says whether that has been done.
   */
  ghost predicate UpToDate(b: Band, s: Sys, proc: Proc, noted: bool) {
    match proc
    case HasMtime(_) => true
    case PastGate(_) => true
    case HasAccounts(_, accounts) => accounts == s.ledger.accounts
    case HasWanted(_, wanted) => wanted == WantedNow(b, s)
    case Asking(_, wanted, known, left) =>
      && wanted == WantedNow(b, s) && known == Known(b, s.ledger.groups)
      && (forall u :: u in wanted && u !in left ==> u in s.agreed || (!noted && AgreesNow(b, s, u)))
    case Flushed(_) => Settled(b, s)
  }

  /** It knows the present ledger, or has read too little, or can no longer finish. */
  ghost predicate Harmless(b: Band, s: Sys, proc: Proc, noted: bool) {
    UpToDate(b, s, proc, noted) || !Committed(b, proc)
  }

  ghost predicate Inv(b: Band, s: Sys, noted: bool) {
    && (s.recorded >= s.mtime ==> Settled(b, s))
    && (forall p :: p in s.procs && s.procs[p].mtime >= s.mtime ==> Harmless(b, s, s.procs[p], noted))
    && (forall u :: u in s.agreed ==> u in WantedNow(b, s) && s.agreed[u] <= s.clock)
    && (forall c :: c in s.contexts ==> s.contexts[c].at <= s.clock)
  }

  /** Noting changes no user's first agreement and only adds to them. */
  lemma NoteKeeps(b: Band, s: Sys)
    requires Inv(b, s, false)
    ensures Inv(b, Note(b, s), true)
  {
  }

  predicate Outside(a: Action) {
    a.Write? || a.Refresh? || a.Pin? || a.Expire? || a.ReadMtime?
  }

  lemma WriteKeeps(b: Band, s: Sys, ledger: Ledger, advance: int)
    requires Inv(b, s, true) && !MayMislead(b, s, s.mtime + advance)
    ensures Inv(b, Step(b, s, Write(ledger, advance)).value, false)
  {
  }

  lemma OutsideKeeps(b: Band, s: Sys, a: Action)
    requires Inv(b, s, true) && Step(b, s, a).Some? && Outside(a) && !a.Write?
    ensures Inv(b, Step(b, s, a).value, false)
  {
    var s' := Step(b, s, a).value;
    forall p | p in s'.procs && s'.procs[p].mtime >= s'.mtime ensures Harmless(b, s', s'.procs[p], false) {
      if p in s.procs { StaysHarmless(b, s, s', s.procs[p]); }
    }
  }

  /** What others do to contexts and to the NAS does not make a reconciler's knowledge wrong. */
  lemma StaysHarmless(b: Band, s: Sys, s': Sys, proc: Proc)
    requires s'.ledger == s.ledger && s'.agreed == s.agreed && Harmless(b, s, proc, true)
    requires forall c :: c in s'.contexts ==>
               (c in s.contexts && s'.contexts[c] == s.contexts[c]) || s'.contexts[c].at == s.clock
    requires forall u :: u in s.agreed ==> s.agreed[u] <= s.clock
    ensures Harmless(b, s', proc, false)
  {
  }

  /** A reconciler's step leaves the others as they were, and contexts can only go. */
  lemma OthersStaySettled(b: Band, s: Sys, s': Sys)
    requires s'.ledger == s.ledger && s'.agreed == s.agreed && Settled(b, s)
    requires forall c :: c in s'.contexts ==> c in s.contexts && s'.contexts[c] == s.contexts[c]
    ensures Settled(b, s')
  {
  }

  /** It brings its own knowledge forward by one read, one answer, or the flush. */
  lemma OwnStepUpToDate(b: Band, s: Sys, a: Action)
    requires !Outside(a) && a.p in s.procs && Step(b, s, a).Some? && UpToDate(b, s, s.procs[a.p], true)
    ensures var s' := Step(b, s, a).value; a.p in s'.procs ==> UpToDate(b, s', s'.procs[a.p], false)
  {
  }

  /** Once it cannot finish, no step of its own changes that. */
  lemma StaysUnfinished(b: Band, s: Sys, a: Action)
    requires !Outside(a) && a.p in s.procs && Step(b, s, a).Some?
    requires !s.procs[a.p].HasMtime? && !s.procs[a.p].PastGate? && !Committed(b, s.procs[a.p])
    ensures var s' := Step(b, s, a).value; a.p in s'.procs ==> !Committed(b, s'.procs[a.p])
    ensures !a.Flush? && !a.WriteState?
  {
  }

  lemma OwnStepHarmless(b: Band, s: Sys, a: Action)
    requires !Outside(a) && a.p in s.procs && Step(b, s, a).Some? && Harmless(b, s, s.procs[a.p], true)
    ensures var s' := Step(b, s, a).value; a.p in s'.procs ==> Harmless(b, s', s'.procs[a.p], false)
    ensures a.WriteState? ==> Settled(b, s)
  {
    if UpToDate(b, s, s.procs[a.p], true) {
      OwnStepUpToDate(b, s, a);
    } else {
      StaysUnfinished(b, s, a);
    }
  }

  lemma OwnMtimeStays(b: Band, s: Sys, a: Action)
    requires !Outside(a) && a.p in s.procs && Step(b, s, a).Some?
    ensures var s' := Step(b, s, a).value;
            && (a.p in s'.procs ==> s'.procs[a.p].mtime == s.procs[a.p].mtime)
            && (forall q :: q in s'.procs && q != a.p ==> q in s.procs && s'.procs[q] == s.procs[q])
            && s'.recorded == (if a.WriteState? then s.procs[a.p].mtime else s.recorded)
            && s'.mtime == s.mtime && s'.ledger == s.ledger && s'.agreed == s.agreed && s'.clock == s.clock
            && (s'.contexts == s.contexts || s'.contexts == map[])
  {
  }

  lemma ReconcilerKeeps(b: Band, s: Sys, a: Action)
    requires Inv(b, s, true) && Step(b, s, a).Some? && !Outside(a)
    ensures Inv(b, Step(b, s, a).value, false)
  {
    var s' := Step(b, s, a).value;
    OwnMtimeStays(b, s, a);
    if s.procs[a.p].mtime >= s.mtime { OwnStepHarmless(b, s, a); }
    if s'.recorded >= s'.mtime { OthersStaySettled(b, s, s'); }
    forall q | q in s'.procs && s'.procs[q].mtime >= s'.mtime ensures Harmless(b, s', s'.procs[q], false) {
      if q != a.p { StaysHarmless(b, s, s', s.procs[q]); }
    }
  }

  lemma StepKeeps(b: Band, s: Sys, a: Action)
    requires Inv(b, s, true) && Step(b, s, a).Some? && (a.Write? ==> !MayMislead(b, s, s.mtime + a.advance))
    ensures Inv(b, Step(b, s, a).value, false)
  {
    match a {
      case Write(ledger, advance) => WriteKeeps(b, s, ledger, advance);
      case _ => if Outside(a) { OutsideKeeps(b, s, a); } else { ReconcilerKeeps(b, s, a); }
    }
  }

  lemma ActKeeps(b: Band, s: Sys, a: Action)
    requires Inv(b, s, true) && Act(b, s, a).Some? && (a.Write? ==> !MayMislead(b, s, s.mtime + a.advance))
    ensures Inv(b, Act(b, s, a).value, true)
  {
    StepKeeps(b, s, a);
    NoteKeeps(b, Step(b, s, a).value);
  }

  lemma {:induction false} PlayKeeps(b: Band, s: Sys, actions: seq<Action>)
    requires Inv(b, s, true) && Play(b, s, actions).Some? && NoneMisleads(b, s, actions)
    ensures Inv(b, Play(b, s, actions).value, true)
    decreases |actions|
  {
    if actions != [] {
      ActKeeps(b, s, actions[0]);
      PlayKeeps(b, Act(b, s, actions[0]).value, actions[1..]);
    }
  }

  /** A start with no reconciler at work and no flush recorded for the ledger as it is. */
  function Begin(ledger: Ledger, mtime: int, recorded: int, nas: View, contexts: map<int, Context>): Sys {
    Sys(ledger, mtime, recorded, nas, contexts, map[], 0, map[])
  }

  /**
   * Whatever the reconcilers do at once, as long as no write may mislead: whenever the recorded flush has reached the
   * ledger's modification time, the NAS has agreed with the present ledger about every user of it, and every live
   * context of such a user was pinned after that. An older reconciler that overwrites the record only makes it fall behind again.
   */
  lemma RecordedMeansSettled(b: Band, ledger: Ledger, mtime: int, recorded: int, nas: View, contexts: map<int, Context>,
                             actions: seq<Action>)
    requires recorded < mtime && (forall c :: c in contexts ==> contexts[c].at == 0)
    requires Play(b, Begin(ledger, mtime, recorded, nas, contexts), actions).Some?
    requires NoneMisleads(b, Begin(ledger, mtime, recorded, nas, contexts), actions)
    ensures var s := Play(b, Begin(ledger, mtime, recorded, nas, contexts), actions).value;
            s.recorded >= s.mtime ==> Settled(b, s)
  {
    PlayKeeps(b, Begin(ledger, mtime, recorded, nas, contexts), actions);
  }

  // ---------- with a NAS that does not go back ----------

  /** Contexts pinned since the agreement hold the right groups, and the agreement stands. */
  ghost predicate GroupsRight(b: Band, s: Sys) {
    && (forall u :: u in s.agreed ==> AgreesNow(b, s, u))
    && (forall c :: c in s.contexts && s.contexts[c].user in s.agreed && s.agreed[s.contexts[c].user] <= s.contexts[c].at ==>
          HoldsRightGroups(b, s, s.contexts[c]))
  }

  predicate HoldsRightGroups(b: Band, s: Sys, c: Context) {
    c.user in WantedNow(b, s) && c.gids * Known(b, s.ledger.groups) == WantedNow(b, s)[c.user]
  }

  /** Once it agrees about a user, the NAS goes on agreeing until the ledger is written again. */
  ghost predicate DoesNotGoBack(b: Band, s: Sys, actions: seq<Action>)
    decreases |actions|
  {
    actions == [] ||
    ((actions[0].Refresh? ==> forall u :: u in s.agreed ==> AgreesNow(b, s.(nas := actions[0].nas), u))
     && (Act(b, s, actions[0]).Some? ==> DoesNotGoBack(b, Act(b, s, actions[0]).value, actions[1..])))
  }

  lemma StepKeepsRight(b: Band, s: Sys, a: Action)
    requires Inv(b, s, true) && GroupsRight(b, s) && Step(b, s, a).Some?
    requires a.Refresh? ==> forall u :: u in s.agreed ==> AgreesNow(b, s.(nas := a.nas), u)
    ensures GroupsRight(b, Step(b, s, a).value)
  {
    var s' := Step(b, s, a).value;
    match a {
      case Write(_, _) => assert s'.agreed == map[];
      case Refresh(nas) => RefreshKeepsRight(b, s, nas);
      case Pin(c, user) => PinKeepsRight(b, s, c, user);
      case _ => FewerContextsKeepRight(b, s, s');
    }
  }

  lemma RefreshKeepsRight(b: Band, s: Sys, nas: View)
    requires GroupsRight(b, s) && forall u :: u in s.agreed ==> AgreesNow(b, s.(nas := nas), u)
    ensures GroupsRight(b, s.(nas := nas))
  {
  }

  lemma PinKeepsRight(b: Band, s: Sys, c: int, user: User)
    requires GroupsRight(b, s) && Step(b, s, Pin(c, user)).Some?
    ensures GroupsRight(b, Step(b, s, Pin(c, user)).value)
  {
  }

  lemma FewerContextsKeepRight(b: Band, s: Sys, s': Sys)
    requires GroupsRight(b, s) && s'.ledger == s.ledger && s'.nas == s.nas && s'.agreed == s.agreed
    requires forall c :: c in s'.contexts ==> c in s.contexts && s'.contexts[c] == s.contexts[c]
    ensures GroupsRight(b, s')
  {
  }

  /** A first agreement is noted later than anything pinned so far. */
  lemma NoteKeepsRight(b: Band, s: Sys)
    requires Inv(b, s, false) && GroupsRight(b, s)
    ensures GroupsRight(b, Note(b, s))
  {
  }

  lemma {:induction false} PlayKeepsRight(b: Band, s: Sys, actions: seq<Action>)
    requires Inv(b, s, true) && GroupsRight(b, s) && Play(b, s, actions).Some?
    requires NoneMisleads(b, s, actions) && DoesNotGoBack(b, s, actions)
    ensures Inv(b, Play(b, s, actions).value, true) && GroupsRight(b, Play(b, s, actions).value)
    decreases |actions|
  {
    if actions != [] {
      var a := actions[0];
      ActKeeps(b, s, a);
      StepKeeps(b, s, a);
      StepKeepsRight(b, s, a);
      NoteKeepsRight(b, Step(b, s, a).value);
      PlayKeepsRight(b, Act(b, s, a).value, actions[1..]);
    }
  }

  /**
   * Then a recorded flush that has reached the ledger's modification time means what it is for: every live
   * context of a user of the ledger holds exactly the shared groups the ledger gives him.
   */
  lemma RecordedMeansRightGroups(b: Band, ledger: Ledger, mtime: int, recorded: int, nas: View, contexts: map<int, Context>,
                                 actions: seq<Action>)
    requires recorded < mtime && (forall c :: c in contexts ==> contexts[c].at == 0)
    requires var s0 := Begin(ledger, mtime, recorded, nas, contexts);
             Play(b, s0, actions).Some? && NoneMisleads(b, s0, actions) && DoesNotGoBack(b, s0, actions)
    ensures var s := Play(b, Begin(ledger, mtime, recorded, nas, contexts), actions).value;
            s.recorded >= s.mtime ==>
              forall c :: c in s.contexts && s.contexts[c].user in WantedNow(b, s) ==> HoldsRightGroups(b, s, s.contexts[c])
  {
    PlayKeepsRight(b, Begin(ledger, mtime, recorded, nas, contexts), actions);
  }

  // ---------- only while modification times move forward ----------

  /** Every write of the ledger moves its modification time forward. */
  predicate WritesAdvance(actions: seq<Action>) {
    forall a :: a in actions && a.Write? ==> a.advance > 0
  }

  /** Then none may mislead: every time that was ever read or recorded lies behind. */
  lemma {:induction false} AdvancingWritesDoNotMislead(b: Band, s: Sys, actions: seq<Action>)
    requires Play(b, s, actions).Some? && WritesAdvance(actions)
    requires s.recorded <= s.mtime && forall p :: p in s.procs ==> s.procs[p].mtime <= s.mtime
    ensures NoneMisleads(b, s, actions)
    decreases |actions|
  {
    if actions != [] {
      assert actions[0] in actions && forall a :: a in actions[1..] ==> a in actions;
      TimesStayBehind(b, s, actions[0]);
      AdvancingWritesDoNotMislead(b, Act(b, s, actions[0]).value, actions[1..]);
    }
  }

  lemma TimesStayBehind(b: Band, s: Sys, a: Action)
    requires Act(b, s, a).Some? && (a.Write? ==> a.advance > 0)
    requires s.recorded <= s.mtime && forall p :: p in s.procs ==> s.procs[p].mtime <= s.mtime
    ensures var s' := Act(b, s, a).value; s'.recorded <= s'.mtime && forall p :: p in s'.procs ==> s'.procs[p].mtime <= s'.mtime
  {
    if !Outside(a) { OwnMtimeStays(b, s, a); }
  }

  // ---------- a write that may mislead does so, for some content ----------

  /**
   * After the NAS has been refreshed, the ledger is written with that advance and never again; in the end a flush
   * is recorded for it, although not everybody is settled.
   */
  ghost predicate Misleads(b: Band, s: Sys, advance: int, nas: View, ledger: Ledger, rest: seq<Action>) {
    && (forall a :: a in rest ==> !a.Write?)
    && var run := Play(b, s, [Refresh(nas), Write(ledger, advance)] + rest);
       run.Some? && run.value.recorded >= run.value.mtime && !Settled(b, run.value)
  }

  /** Lines without members for these gids. */
  ghost function LinesFor(gids: set<Gid>): (groups: seq<Group>)
    ensures forall g :: g in groups ==> g.members == []
    ensures forall n :: n in gids <==> exists g :: g in groups && g.gid == n
  {
    if exists n :: n in gids then
      var n :| n in gids;
      var rest := LinesFor(gids - {n});
      assert forall g :: g in [Group(n, [])] + rest <==> g == Group(n, []) || g in rest;
      assert forall m :: m in gids <==> m == n || m in gids - {n};
      [Group(n, [])] + rest
    else []
  }

  lemma KnownLines(b: Band, gids: set<Gid>)
    requires forall n :: n in gids ==> Shared(b, n)
    ensures Known(b, LinesFor(gids)) == gids
    ensures forall accounts :: Wanted(b, accounts, LinesFor(gids)) == map u | u in accounts :: {}
  {
    forall accounts: seq<User>
      ensures Wanted(b, accounts, LinesFor(gids)) == map u | u in accounts :: {}
    {
      assert forall u :: GidsOf(b, LinesFor(gids), u) == {};
    }
  }

  /** A name longer than all of these. */
  lemma {:induction false} Stranger(users: set<User>) returns (z: User)
    ensures z !in users && forall u :: u in users ==> |u| < |z|
    decreases |users|
  {
    if u :| u in users {
      var y := Stranger(users - {u});
      z := (if |u| < |y| then y else u) + "x";
      assert forall v :: v in users ==> v == u || v in users - {u};
    } else {
      z := "x";
    }
  }

  /** A user the ledger gives no groups, while the NAS still has him in one that the ledger knows. */
  ghost predicate Overlooked(b: Band, s: Sys, z: User) {
    z in WantedNow(b, s) && z !in s.agreed && !AgreesNow(b, s, z)
  }

  /** From here on the reconciler finds the NAS in agreement with all it has still to ask about. */
  ghost predicate FindsAgreement(b: Band, s: Sys, proc: Proc) {
    match proc
    case HasMtime(_) => false
    case PastGate(_) => false
    case HasAccounts(_, accounts) => AgreesAll(s.nas, Wanted(b, accounts, s.ledger.groups), Known(b, s.ledger.groups))
    case HasWanted(_, wanted) => AgreesAll(s.nas, wanted, Known(b, s.ledger.groups))
    case Asking(_, wanted, known, left) => forall u :: u in left ==> u in wanted && Agrees(s.nas, wanted, known, u)
    case Flushed(_) => true
  }

  function Rank(proc: Proc): nat {
    match proc
    case Flushed(_) => 0
    case Asking(_, _, _, _) => 1
    case HasWanted(_, _) => 2
    case HasAccounts(_, _) => 3
    case _ => 4
  }

  function Left(proc: Proc): set<User> {
    if proc.Asking? then proc.left else {}
  }

  /** The reconciler's next step, with this user if it is one more question. */
  function NextStep(p: ProcId, proc: Proc, u: User): Action {
    match proc
    case HasAccounts(_, _) => ReadGroups(p)
    case HasWanted(_, _) => ReadKnown(p)
    case Asking(_, _, _, left) => if left == {} then Flush(p) else Ask(p, u)
    case _ => WriteState(p)
  }

  lemma StepForward(b: Band, s: Sys, p: ProcId, u: User, z: User)
    requires p in s.procs && FindsAgreement(b, s, s.procs[p]) && !s.procs[p].Flushed? && Overlooked(b, s, z)
    requires Left(s.procs[p]) != {} ==> u in Left(s.procs[p])
    ensures var next := Act(b, s, NextStep(p, s.procs[p], u));
            && next.Some? && p in next.value.procs
            && next.value.procs[p].mtime == s.procs[p].mtime && next.value.mtime == s.mtime
            && FindsAgreement(b, next.value, next.value.procs[p]) && Overlooked(b, next.value, z)
            && (if Left(s.procs[p]) != {} then next.value.procs[p].Asking? && Left(next.value.procs[p]) == Left(s.procs[p]) - {u}
                else Rank(next.value.procs[p]) < Rank(s.procs[p]))
  {
  }

  lemma {:induction false} RunsToTheEnd(b: Band, s: Sys, p: ProcId, z: User) returns (rest: seq<Action>)
    requires p in s.procs && FindsAgreement(b, s, s.procs[p]) && Overlooked(b, s, z)
    ensures forall a :: a in rest ==> !a.Write?
    ensures var run := Play(b, s, rest);
            run.Some? && run.value.mtime == s.mtime && run.value.recorded == s.procs[p].mtime && Overlooked(b, run.value, z)
    decreases Rank(s.procs[p]), |Left(s.procs[p])|
  {
    var proc := s.procs[p];
    if proc.Flushed? {
      rest := [WriteState(p)];
      assert rest[1..] == [];
    } else {
      var u: User := z;
      if v :| v in Left(proc) { u := v; }
      var a := NextStep(p, proc, u);
      StepForward(b, s, p, u, z);
      var next := Act(b, s, a).value;
      var more := RunsToTheEnd(b, next, p, z);
      rest := [a] + more;
      assert rest[1..] == more;
    }
  }

  /** What the NAS must say for the reconciler to be content while `z` is overlooked. */
  function Deceiving(proc: Proc, z: User, gid: Gid): View {
    match proc
    case HasWanted(_, wanted) => wanted[z := {gid}]
    case Asking(_, wanted, _, _) => wanted[z := {gid}]
    case _ => map[z := {gid}]
  }

  /** The gids the new ledger must know. */
  function NeededGids(proc: Proc, gid: Gid): set<Gid> {
    (if proc.HasWanted? then set u, g | u in proc.wanted && g in proc.wanted[u] :: g else {}) + {gid}
  }

  function NamesKnown(proc: Proc): set<User> {
    match proc
    case HasAccounts(_, accounts) => set u | u in accounts
    case HasWanted(_, wanted) => wanted.Keys
    case Asking(_, wanted, _, _) => wanted.Keys
    case _ => {}
  }

  lemma TwoActions(b: Band, s: Sys, first: Action, second: Action, s1: Sys, s2: Sys)
    requires Act(b, s, first) == Some(s1) && Act(b, s1, second) == Some(s2)
    ensures Play(b, s, [first, second]) == Some(s2)
  {
    assert [first, second][1..] == [second] && [second][1..] == [];
    assert Play(b, s1, [second]) == Play(b, s2, []);
  }

  lemma NewcomerOverlooked(b: Band, s: Sys, ledger: Ledger, advance: int, z: User, gids: set<Gid>)
    requires ledger.accounts == [z] && Known(b, ledger.groups) == gids && b.low in gids
    requires Wanted(b, ledger.accounts, ledger.groups) == map u | u in ledger.accounts :: {}
    requires z in s.nas && s.nas[z] == {b.low}
    ensures Overlooked(b, Act(b, s, Write(ledger, advance)).value, z)
  {
    var s' := Act(b, s, Write(ledger, advance)).value;
    assert z in WantedNow(b, s') && WantedNow(b, s')[z] == {};
    assert b.low in s'.nas[z] * gids;
  }

  /** The state after the refresh and the write. */
  lemma WrittenOver(b: Band, s: Sys, advance: int, proc: Proc, z: User) returns (nas: View, ledger: Ledger, s': Sys)
    requires Shared(b, b.low) && Committed(b, proc) && z !in NamesKnown(proc)
    ensures Play(b, s, [Refresh(nas), Write(ledger, advance)]) == Some(s')
    ensures s'.mtime == s.mtime + advance && s'.recorded == s.recorded && s'.procs == s.procs
    ensures Overlooked(b, s', z) && FindsAgreement(b, s', proc)
  {
    var gids := NeededGids(proc, b.low);
    nas := Deceiving(proc, z, b.low);
    ledger := Ledger([z], LinesFor(gids));
    KnownLines(b, gids);
    var s1 := Act(b, s, Refresh(nas)).value;
    s' := Act(b, s1, Write(ledger, advance)).value;
    TwoActions(b, s, Refresh(nas), Write(ledger, advance), s1, s');
    NewcomerOverlooked(b, s1, ledger, advance, z, gids);
    DeceivedAgrees(b, proc, z, gids, nas, ledger.groups);
  }

  lemma DeceivedAgrees(b: Band, proc: Proc, z: User, gids: set<Gid>, nas: View, groups: seq<Group>)
    requires Shared(b, b.low) && Committed(b, proc) && z !in NamesKnown(proc)
    requires gids == NeededGids(proc, b.low) && nas == Deceiving(proc, z, b.low) && Known(b, groups) == gids
    requires forall accounts :: Wanted(b, accounts, groups) == map u | u in accounts :: {}
    ensures match proc
            case HasAccounts(_, accounts) => AgreesAll(nas, Wanted(b, accounts, groups), Known(b, groups))
            case HasWanted(_, wanted) => AgreesAll(nas, wanted, Known(b, groups))
            case Asking(_, wanted, known, left) => forall u :: u in left ==> u in wanted && Agrees(nas, wanted, known, u)
            case _ => true
  {
    if proc.HasWanted? {
      forall u | u in proc.wanted ensures Agrees(nas, proc.wanted, gids, u) {
        assert forall g :: g in proc.wanted[u] ==> g in gids;
        assert proc.wanted[u] * gids == proc.wanted[u];
      }
    }
    if proc.Asking? {
      forall u | u in proc.left ensures Agrees(nas, proc.wanted, proc.known, u) {
        assert proc.wanted[u] * proc.known == proc.wanted[u];
      }
    }
  }

  lemma MisleadingRun(b: Band, s: Sys, advance: int) returns (nas: View, ledger: Ledger, rest: seq<Action>)
    requires Shared(b, b.low) && MayMislead(b, s, s.mtime + advance)
    ensures Misleads(b, s, advance, nas, ledger, rest)
  {
    if s.recorded >= s.mtime + advance {
      var s1: Sys;
      nas, ledger, s1 := WrittenOver(b, s, advance, Flushed(0), "x");
      rest := [];
      assert [Refresh(nas), Write(ledger, advance)] + rest == [Refresh(nas), Write(ledger, advance)];
    } else {
      var p :| p in s.procs && s.procs[p].mtime >= s.mtime + advance && Committed(b, s.procs[p]);
      var z := Stranger(NamesKnown(s.procs[p]));
      var s1: Sys;
      nas, ledger, s1 := WrittenOver(b, s, advance, s.procs[p], z);
      rest := RunsToTheEnd(b, s1, p, z);
      PlayJoin(b, s, [Refresh(nas), Write(ledger, advance)], rest);
    }
  }

  lemma {:induction false} PlayJoin(b: Band, s: Sys, first: seq<Action>, rest: seq<Action>)
    requires Play(b, s, first).Some?
    ensures Play(b, s, first + rest) == Play(b, Play(b, s, first).value, rest)
    decreases |first|
  {
    if first == [] {
      assert first + rest == rest;
    } else {
      assert (first + rest)[0] == first[0] && (first + rest)[1..] == first[1..] + rest;
      PlayJoin(b, Act(b, s, first[0]).value, first[1..], rest);
    }
  }

  lemma {:induction false} WithoutWritesNoneMisleads(b: Band, s: Sys, actions: seq<Action>)
    requires Play(b, s, actions).Some? && forall a :: a in actions ==> !a.Write?
    ensures NoneMisleads(b, s, actions)
    decreases |actions|
  {
    if actions != [] {
      assert actions[0] in actions && forall a :: a in actions[1..] ==> a in actions;
      WithoutWritesNoneMisleads(b, Act(b, s, actions[0]).value, actions[1..]);
    }
  }

  lemma MisleadsExactlyFrom(b: Band, s: Sys, advance: int)
    requires Shared(b, b.low) && Inv(b, s, true)
    ensures MayMislead(b, s, s.mtime + advance) <==> exists nas, ledger, rest :: Misleads(b, s, advance, nas, ledger, rest)
  {
    if MayMislead(b, s, s.mtime + advance) {
      var nas, ledger, rest := MisleadingRun(b, s, advance);
      assert Misleads(b, s, advance, nas, ledger, rest);
    } else {
      forall nas, ledger, rest ensures !Misleads(b, s, advance, nas, ledger, rest) {
        if Misleads(b, s, advance, nas, ledger, rest) {
          NotMisled(b, s, advance, nas, ledger, rest);
        }
      }
    }
  }

  /**
   * The condition on writes is exact, wherever a run without such writes has led: some content, written with that
   * advance, ends in a flush recorded for it while not everybody is settled, if and only if the write may mislead.
   */
  lemma MisleadsExactly(b: Band, ledger: Ledger, mtime: int, recorded: int, nas: View, contexts: map<int, Context>,
                        before: seq<Action>, advance: int)
    requires Shared(b, b.low) && recorded < mtime && (forall c :: c in contexts ==> contexts[c].at == 0)
    requires Play(b, Begin(ledger, mtime, recorded, nas, contexts), before).Some?
    requires NoneMisleads(b, Begin(ledger, mtime, recorded, nas, contexts), before)
    ensures var s := Play(b, Begin(ledger, mtime, recorded, nas, contexts), before).value;
            MayMislead(b, s, s.mtime + advance) <==>
              exists nas', ledger', rest :: Misleads(b, s, advance, nas', ledger', rest)
  {
    PlayKeeps(b, Begin(ledger, mtime, recorded, nas, contexts), before);
    MisleadsExactlyFrom(b, Play(b, Begin(ledger, mtime, recorded, nas, contexts), before).value, advance);
  }

  lemma NotMisled(b: Band, s: Sys, advance: int, nas: View, ledger: Ledger, rest: seq<Action>)
    requires Inv(b, s, true) && !MayMislead(b, s, s.mtime + advance)
    requires forall a :: a in rest ==> !a.Write?
    requires Play(b, s, [Refresh(nas), Write(ledger, advance)] + rest).Some?
    ensures var last := Play(b, s, [Refresh(nas), Write(ledger, advance)] + rest).value;
            last.recorded >= last.mtime ==> Settled(b, last)
  {
    var run := [Refresh(nas), Write(ledger, advance)] + rest;
    assert run[0] == Refresh(nas) && run[1..][0] == Write(ledger, advance) && run[1..][1..] == rest;
    var s1 := Act(b, s, Refresh(nas)).value;
    ActKeeps(b, s, Refresh(nas));
    ActKeeps(b, s1, Write(ledger, advance));
    var s2 := Act(b, s1, Write(ledger, advance)).value;
    WithoutWritesNoneMisleads(b, s2, rest);
    PlayKeeps(b, s2, rest);
  }

  // ---------- a time that stays behind hides the change ----------

  /** A write opens the gate again exactly when it moves the modification time beyond the recorded one. */
  lemma WriteOpensTheGateExactly(b: Band, s: Sys, ledger: Ledger, advance: int, p: ProcId)
    requires p !in s.procs
    ensures var read := Act(b, Act(b, s, Write(ledger, advance)).value, ReadMtime(p)).value;
            var past := Act(b, read, ReadState(p)).value;
            p in past.procs <==> s.mtime + advance > s.recorded
  {
  }

  /** No reconciler is past the gate, and none that comes to it will pass. */
  ghost predicate Shut(s: Sys) {
    s.recorded >= s.mtime && forall p :: p in s.procs ==> s.procs[p].HasMtime? && s.procs[p].mtime <= s.recorded
  }

  lemma ShutStaysShut(b: Band, s: Sys, a: Action)
    requires Shut(s) && Act(b, s, a).Some? && !a.Write?
    ensures var s' := Act(b, s, a).value;
            && Shut(s') && s'.ledger == s.ledger
            && (forall c :: c in s.contexts && a != Expire(c) ==> c in s'.contexts && s'.contexts[c] == s.contexts[c])
  {
  }

  lemma {:induction false} ShutKeepsContexts(b: Band, s: Sys, actions: seq<Action>, c: int)
    requires Shut(s) && Play(b, s, actions).Some? && c in s.contexts && Expire(c) !in actions
    requires forall a :: a in actions ==> !a.Write?
    ensures var last := Play(b, s, actions).value;
            last.ledger == s.ledger && c in last.contexts && last.contexts[c] == s.contexts[c]
    decreases |actions|
  {
    if actions != [] {
      assert actions[0] in actions && forall a :: a in actions[1..] ==> a in actions;
      ShutStaysShut(b, s, actions[0]);
      ShutKeepsContexts(b, Act(b, s, actions[0]).value, actions[1..], c);
    }
  }

  /**
   * A write that does not get there hides its change: with no reconciler at work, a context that holds other
   * groups than the ledger now gives its user goes on holding them, whatever reconcilers run and however the NAS
   * is refreshed, until it expires or the ledger is written again.
   */
  lemma UnmovedTimeHidesTheChange(b: Band, s: Sys, ledger: Ledger, advance: int, actions: seq<Action>, c: int)
    requires s.procs == map[] && s.mtime + advance <= s.recorded
    requires forall a :: a in actions ==> !a.Write?
    requires c in s.contexts && !HoldsRightGroups(b, s.(ledger := ledger), s.contexts[c]) && Expire(c) !in actions
    requires Play(b, Act(b, s, Write(ledger, advance)).value, actions).Some?
    ensures var last := Play(b, Act(b, s, Write(ledger, advance)).value, actions).value;
            c in last.contexts && !HoldsRightGroups(b, last, last.contexts[c])
  {
    ShutKeepsContexts(b, Act(b, s, Write(ledger, advance)).value, actions, c);
  }
}
