/** The step names of the lifecycle engine, the engine's tables about them, and the plan of every kind of job. */
module Plans {
  import opened Prelude

  datatype StepName =
    | ResolveNewGroups | AddUserGroups | CreateAccount | CreateHome | CreateKrb5Principal
    | AwaitAdReplication | SyncAdGroups | TriggerNasGssFlush | RestoreMissingHome
    | MigrateSelectTarget | FetchUserConfig | MigrateInheritPassword | PreparePod | SelectNode
    | MigrateCommitImage | BuildPodSpec | CreatePodK8s | WaitReady | CreateServices
    | CaptureAccessTargets | DeleteServices | ReleaseNodeports | DeletePodK8s | RemoveNodeImage
    | CleanupPodNodeKrb5 | CheckAccountRevocable | DeleteAccount | RemoveKrb5
    | VerifyRevoked | VerifyAccountRevoked
    | VerifyUid | VerifyKrb5 | VerifyHomeIo | VerifyGpu | VerifyEndpoint | MigrateCleanupOld
    | ChangeLoginPassword | DeleteExpiredHome | ChangePorts | SetAccountAccess
    | GroupCreate | GroupAddMember | GroupRemoveMember

  type Plan = seq<StepName>

  /** Steps that run on every pass and never enter the list of finished steps. */
  const ALWAYS_RERUN: set<StepName> := {FetchUserConfig, MigrateInheritPassword, ResolveNewGroups}

  /** The step whose own completion is not recorded: it counts as done once its partner is. */
  function Partner(s: StepName): Option<StepName> {
    if s == BuildPodSpec then Some(CreatePodK8s) else None
  }

  predicate Recordable(s: StepName) {
    s !in ALWAYS_RERUN && Partner(s).None?
  }

  /** The step a failure goes back to when it has torn down the work of earlier steps as well. */
  function RestartPoint(s: StepName): Option<StepName> {
    match s
    case CreateHome => Some(CreateAccount)
    case CreateKrb5Principal => Some(CreateAccount)
    case CreatePodK8s => Some(BuildPodSpec)
    case WaitReady => Some(BuildPodSpec)
    case CreateServices => Some(BuildPodSpec)
    case _ => None
  }

  /** Steps whose effect can be looked up after an unknown result. */
  const OBSERVED: set<StepName> := {CreateAccount, CreateKrb5Principal, CreatePodK8s}

  const VERIFY_STEPS: set<StepName> :=
    {VerifyUid, VerifyKrb5, VerifyHomeIo, VerifyGpu, VerifyEndpoint,
     CaptureAccessTargets, VerifyRevoked, VerifyAccountRevoked}

  const RERUN_SAFE: set<StepName> :=
    {FetchUserConfig, PreparePod, SelectNode, BuildPodSpec, CreateHome, WaitReady, CreateServices,
     DeleteServices, ReleaseNodeports, DeletePodK8s, RemoveNodeImage, CleanupPodNodeKrb5,
     CheckAccountRevocable, DeleteAccount, RemoveKrb5, MigrateSelectTarget, MigrateInheritPassword,
     MigrateCommitImage, MigrateCleanupOld, AddUserGroups, SyncAdGroups, AwaitAdReplication,
     ChangeLoginPassword, DeleteExpiredHome, RestoreMissingHome, GroupCreate, GroupAddMember,
     GroupRemoveMember, ResolveNewGroups, ChangePorts, SetAccountAccess}

  // ---------- the plan of a job ----------

  datatype Mode = Baseline | NoProbe | Full
  datatype GroupOp = Create | Add | Remove
  datatype AccountPart = NewAccount | GroupsOnly | ExistingAccount

  datatype Job =
    | PasswordJob
    | HomeJob
    | PortJob
    | AccessJob
    | GroupJob(op: GroupOp)
    | MigrateJob
    | ProvisionJob(account: AccountPart, groupWithoutGid: bool)
    | RevokeJob(hasPod: bool, deleteAccount: bool)

  const ACCOUNT_CREATE_STEPS: Plan :=
    [CreateAccount, CreateHome, CreateKrb5Principal, AwaitAdReplication, SyncAdGroups]
  const SUPP_GROUPS_ONLY_STEPS: Plan := [AddUserGroups, SyncAdGroups, TriggerNasGssFlush]
  const POD_CREATE_STEPS: Plan :=
    [FetchUserConfig, PreparePod, SelectNode, BuildPodSpec, CreatePodK8s, WaitReady, CreateServices]
  const MIGRATE_HEAD: Plan :=
    [MigrateSelectTarget, FetchUserConfig, MigrateInheritPassword, PreparePod, MigrateCommitImage,
     BuildPodSpec, CreatePodK8s, WaitReady, CreateServices]
  const VERIFY_ACCESS_STEPS: Plan := [VerifyUid, VerifyKrb5, VerifyHomeIo, VerifyGpu, VerifyEndpoint]
  const POD_DELETE_STEPS: Plan :=
    [DeleteServices, ReleaseNodeports, DeletePodK8s, RemoveNodeImage, CleanupPodNodeKrb5]

  /** The probes of a plan, in the modes that run them. */
  function Probes(mode: Mode): Plan {
    if mode.Full? then VERIFY_ACCESS_STEPS else []
  }

  function AccountSteps(account: AccountPart): Plan {
    match account
    case NewAccount => ACCOUNT_CREATE_STEPS
    case GroupsOnly => SUPP_GROUPS_ONLY_STEPS + [RestoreMissingHome]
    case ExistingAccount => [RestoreMissingHome]
  }

  function JobSteps(job: Job, mode: Mode): Plan {
    match job
    case PasswordJob => [ChangeLoginPassword]
    case HomeJob => [DeleteExpiredHome]
    case PortJob => [ChangePorts]
    case AccessJob => [SetAccountAccess]
    case GroupJob(op) =>
      (match op case Create => [GroupCreate] case Add => [GroupAddMember] case Remove => [GroupRemoveMember])
    case MigrateJob => MIGRATE_HEAD + Probes(mode) + [MigrateCleanupOld]
    case ProvisionJob(account, groupWithoutGid) =>
      (if groupWithoutGid && !account.ExistingAccount? then [ResolveNewGroups] else [])
      + AccountSteps(account) + POD_CREATE_STEPS + Probes(mode)
    case RevokeJob(hasPod, deleteAccount) =>
      (if mode.Full? && hasPod then [CaptureAccessTargets] else [])
      + (if hasPod then POD_DELETE_STEPS else [])
      + (if deleteAccount then [CheckAccountRevocable, DeleteAccount, RemoveKrb5] else [])
      + (if mode.Full? && hasPod then [VerifyRevoked] else [])
      + (if mode.Full? && deleteAccount then [VerifyAccountRevoked] else [])
  }

  // ---------- what the engine relies on ----------

  /** No step appears twice, a deferred step is followed by its partner, a restart point lies behind. */
  ghost predicate WellFormed(plan: Plan) {
    && Distinct(plan)
    && (forall i, j :: 0 <= i < |plan| && 0 <= j < |plan| && RestartPoint(plan[i]) == Some(plan[j]) ==> j <= i)
    && (forall i :: 0 <= i < |plan| && Partner(plan[i]).Some? ==>
          exists j :: i < j < |plan| && plan[j] == Partner(plan[i]).value)
  }

  lemma DistinctJoin(a: Plan, b: Plan)
    requires Distinct(a) && Distinct(b)
    requires forall s :: s in a ==> s !in b
    ensures Distinct(a + b)
  {
    forall i, j | 0 <= i < j < |a + b| ensures (a + b)[i] != (a + b)[j] {
      if i < |a| <= j { assert a[i] in a && b[j - |a|] in b; }
    }
  }

  lemma MigrateDistinct(mode: Mode)
    ensures Distinct(JobSteps(MigrateJob, mode))
  {
  }

  /** The account part and the Pod part of a provisioning plan share no step. */
  lemma AccountStepsDistinct(account: AccountPart)
    ensures Distinct(AccountSteps(account))
    ensures forall s :: s in AccountSteps(account) ==> s != ResolveNewGroups && s !in VERIFY_ACCESS_STEPS
    ensures forall s :: s in AccountSteps(account) ==> s !in POD_CREATE_STEPS
  {
  }

  lemma ProvisionDistinct(account: AccountPart, groupWithoutGid: bool, mode: Mode)
    ensures Distinct(JobSteps(ProvisionJob(account, groupWithoutGid), mode))
  {
    var groups: Plan := if groupWithoutGid && !account.ExistingAccount? then [ResolveNewGroups] else [];
    var steps := AccountSteps(account);
    AccountStepsDistinct(account);
    DistinctJoin(groups, steps);
    PodPartDistinct(groups + steps, mode);
    assert groups + steps + POD_CREATE_STEPS + Probes(mode) == JobSteps(ProvisionJob(account, groupWithoutGid), mode);
  }

  lemma PodPartDistinct(head: Plan, mode: Mode)
    requires Distinct(head)
    requires forall s :: s in head ==> s !in POD_CREATE_STEPS && s !in VERIFY_ACCESS_STEPS
    ensures Distinct(head + POD_CREATE_STEPS + Probes(mode))
  {
    DistinctJoin(head, POD_CREATE_STEPS);
    DistinctJoin(head + POD_CREATE_STEPS, Probes(mode));
  }

  lemma RevokeDistinct(hasPod: bool, deleteAccount: bool, mode: Mode)
    ensures Distinct(JobSteps(RevokeJob(hasPod, deleteAccount), mode))
  {
  }

  lemma PodPartnerFollows(head: Plan, probes: Plan, i: nat)
    requires var plan := head + POD_CREATE_STEPS + probes; Distinct(plan) && i < |plan| && plan[i] == BuildPodSpec
    ensures var plan := head + POD_CREATE_STEPS + probes; i + 1 < |plan| && plan[i + 1] == CreatePodK8s
  {
    var plan, k := head + POD_CREATE_STEPS + probes, |head|;
    assert plan[k + 3] == POD_CREATE_STEPS[3] && plan[k + 4] == POD_CREATE_STEPS[4];
  }

  lemma PartnerFollows(job: Job, mode: Mode, i: nat)
    requires i < |JobSteps(job, mode)| && JobSteps(job, mode)[i] == BuildPodSpec
    requires Distinct(JobSteps(job, mode))
    ensures i + 1 < |JobSteps(job, mode)| && JobSteps(job, mode)[i + 1] == CreatePodK8s
  {
    var plan := JobSteps(job, mode);
    match job {
      case MigrateJob =>
        assert plan[5] == BuildPodSpec && plan[6] == CreatePodK8s;
      case ProvisionJob(account, groupWithoutGid) =>
        var groups: Plan := if groupWithoutGid && !account.ExistingAccount? then [ResolveNewGroups] else [];
        PodPartnerFollows(groups + AccountSteps(account), Probes(mode), i);
      case _ =>
    }
  }

  lemma MigrateRestartsBehind(probes: Plan, i: nat, j: nat)
    requires probes == [] || probes == VERIFY_ACCESS_STEPS
    requires var plan := MIGRATE_HEAD + probes + [MigrateCleanupOld];
             Distinct(plan) && i < |plan| && j < |plan| && RestartPoint(plan[i]) == Some(plan[j])
    ensures j <= i
  {
  }

  lemma ProvisionRestartsBehind(account: AccountPart, groupWithoutGid: bool, mode: Mode, i: nat, j: nat)
    requires var plan := JobSteps(ProvisionJob(account, groupWithoutGid), mode);
             Distinct(plan) && i < |plan| && j < |plan| && RestartPoint(plan[i]) == Some(plan[j])
    ensures j <= i
  {
  }

  lemma RestartsBehind(job: Job, mode: Mode, i: nat, j: nat)
    requires Distinct(JobSteps(job, mode))
    requires i < |JobSteps(job, mode)| && j < |JobSteps(job, mode)|
    requires RestartPoint(JobSteps(job, mode)[i]) == Some(JobSteps(job, mode)[j])
    ensures j <= i
  {
    match job {
      case MigrateJob => MigrateRestartsBehind(Probes(mode), i, j);
      case ProvisionJob(account, groupWithoutGid) => ProvisionRestartsBehind(account, groupWithoutGid, mode, i, j);
      case _ =>
    }
  }

  /** Every plan the engine can build is well formed: the resume logic may rely on it. */
  lemma PlansAreWellFormed(job: Job, mode: Mode)
    ensures WellFormed(JobSteps(job, mode))
  {
    var plan := JobSteps(job, mode);
    match job {
      case MigrateJob => MigrateDistinct(mode);
      case ProvisionJob(account, groupWithoutGid) => ProvisionDistinct(account, groupWithoutGid, mode);
      case RevokeJob(hasPod, deleteAccount) => RevokeDistinct(hasPod, deleteAccount, mode);
      case _ =>
    }
    forall i | 0 <= i < |plan| && Partner(plan[i]).Some?
      ensures exists j :: i < j < |plan| && plan[j] == Partner(plan[i]).value
    {
      PartnerFollows(job, mode, i);
    }
    forall i, j | 0 <= i < |plan| && 0 <= j < |plan| && RestartPoint(plan[i]) == Some(plan[j]) ensures j <= i {
      RestartsBehind(job, mode, i, j);
    }
  }

  // ---------- which step comes before which ----------

  /**
   * What must have happened before a step. An external port stays reserved while a Service still listens on it,
   * an account goes only after the check that nobody needs it, and nothing is reachable or probed before it is
   * ready.
   */
  function Prerequisite(s: StepName): Option<StepName> {
    match s
    case CreateHome => Some(CreateAccount)
    case CreateKrb5Principal => Some(CreateHome)
    case AwaitAdReplication => Some(CreateKrb5Principal)
    case TriggerNasGssFlush => Some(SyncAdGroups)
    case CreatePodK8s => Some(BuildPodSpec)
    case WaitReady => Some(CreatePodK8s)
    case CreateServices => Some(WaitReady)
    case VerifyUid => Some(CreateServices)
    case VerifyKrb5 => Some(CreateServices)
    case VerifyHomeIo => Some(CreateServices)
    case VerifyGpu => Some(CreateServices)
    case VerifyEndpoint => Some(CreateServices)
    case MigrateCleanupOld => Some(CreateServices)
    case ReleaseNodeports => Some(DeleteServices)
    case DeletePodK8s => Some(ReleaseNodeports)
    case RemoveNodeImage => Some(DeletePodK8s)
    case CleanupPodNodeKrb5 => Some(DeletePodK8s)
    case DeleteAccount => Some(CheckAccountRevocable)
    case RemoveKrb5 => Some(DeleteAccount)
    case VerifyRevoked => Some(CleanupPodNodeKrb5)
    case VerifyAccountRevoked => Some(RemoveKrb5)
    case _ => None
  }

  /** Every step of `part` has its prerequisite earlier in it, or in what comes before it. */
  ghost predicate Follows(before: Plan, part: Plan) {
    forall i :: 0 <= i < |part| && Prerequisite(part[i]).Some? ==>
      Prerequisite(part[i]).value in before || Prerequisite(part[i]).value in part[..i]
  }

  lemma FollowsJoin(before: Plan, a: Plan, b: Plan)
    requires Follows(before, a) && Follows(before + a, b)
    ensures Follows(before, a + b)
  {
    forall i | 0 <= i < |a + b| && Prerequisite((a + b)[i]).Some?
      ensures Prerequisite((a + b)[i]).value in before || Prerequisite((a + b)[i]).value in (a + b)[..i]
    {
      if i < |a| {
        assert (a + b)[..i] == a[..i];
      } else {
        assert (a + b)[..i] == a + b[..i - |a|];
      }
    }
  }

  lemma AccountFollows(account: AccountPart)
    ensures Follows([], AccountSteps(account))
  {
    var steps := AccountSteps(account);
    assert |steps| > 1 ==> steps[0] in steps[..1];
    assert |steps| > 2 ==> steps[1] in steps[..2];
    assert |steps| > 3 ==> steps[2] in steps[..3];
  }

  lemma PodFollows(before: Plan)
    ensures Follows(before, POD_CREATE_STEPS) && CreateServices in POD_CREATE_STEPS
  {
    var steps := POD_CREATE_STEPS;
    assert steps[3] in steps[..4] && steps[4] in steps[..5] && steps[5] in steps[..6];
  }

  lemma ProbesFollow(before: Plan, mode: Mode)
    requires CreateServices in before
    ensures Follows(before, Probes(mode))
  {
  }

  lemma MigrateHeadFollows()
    ensures Follows([], MIGRATE_HEAD) && CreateServices in MIGRATE_HEAD
  {
    var steps := MIGRATE_HEAD;
    assert steps[5] in steps[..6] && steps[6] in steps[..7] && steps[7] in steps[..8];
  }

  lemma PodGoesInOrder(before: Plan)
    ensures Follows(before, POD_DELETE_STEPS) && CleanupPodNodeKrb5 in POD_DELETE_STEPS
  {
    var steps := POD_DELETE_STEPS;
    assert steps[0] in steps[..1] && steps[1] in steps[..2] && steps[2] in steps[..3] && steps[2] in steps[..4];
  }

  lemma AccountGoesInOrder(before: Plan)
    ensures Follows(before, [CheckAccountRevocable, DeleteAccount, RemoveKrb5])
  {
    var steps: Plan := [CheckAccountRevocable, DeleteAccount, RemoveKrb5];
    assert steps[0] in steps[..1] && steps[1] in steps[..2];
  }

  lemma OneFollows(before: Plan, s: StepName)
    requires Prerequisite(s).Some? ==> Prerequisite(s).value in before
    ensures Follows(before, [s])
  {
  }

  lemma PartsFollow(a: Plan, b: Plan, c: Plan, d: Plan, e: Plan)
    requires Follows([], a) && Follows(a, b) && Follows(a + b, c) && Follows(a + b + c, d) && Follows(a + b + c + d, e)
    ensures Follows([], a + b + c + d + e)
  {
    assert [] + a == a && [] + (a + b) == a + b && [] + (a + b + c) == a + b + c;
    assert [] + (a + b + c + d) == a + b + c + d;
    FollowsJoin([], a, b);
    FollowsJoin([], a + b, c);
    FollowsJoin([], a + b + c, d);
    FollowsJoin([], a + b + c + d, e);
  }

  lemma RevocationFollows(hasPod: bool, deleteAccount: bool, mode: Mode)
    ensures Follows([], JobSteps(RevokeJob(hasPod, deleteAccount), mode))
  {
    var capture: Plan := if mode.Full? && hasPod then [CaptureAccessTargets] else [];
    var pod: Plan := if hasPod then POD_DELETE_STEPS else [];
    var account: Plan := if deleteAccount then [CheckAccountRevocable, DeleteAccount, RemoveKrb5] else [];
    var check: Plan := if mode.Full? && hasPod then [VerifyRevoked] else [];
    var accountCheck: Plan := if mode.Full? && deleteAccount then [VerifyAccountRevoked] else [];
    OneFollows([], CaptureAccessTargets);
    PodGoesInOrder(capture);
    AccountGoesInOrder(capture + pod);
    if hasPod { RevokedWithPod(capture, pod, account); }
    if deleteAccount { RemovedWithAccount(capture + pod, account, check); }
    PartsFollow(capture, pod, account, check, accountCheck);
  }

  lemma RevokedWithPod(capture: Plan, pod: Plan, account: Plan)
    requires CleanupPodNodeKrb5 in pod
    ensures Follows(capture + pod + account, [VerifyRevoked])
  {
    OneFollows(capture + pod + account, VerifyRevoked);
  }

  lemma RemovedWithAccount(before: Plan, account: Plan, check: Plan)
    requires account == [CheckAccountRevocable, DeleteAccount, RemoveKrb5]
    ensures Follows(before + account + check, [VerifyAccountRevoked])
  {
    assert account[2] in account;
    OneFollows(before + account + check, VerifyAccountRevoked);
  }

  lemma ProvisionFollows(account: AccountPart, groupWithoutGid: bool, mode: Mode)
    ensures Follows([], JobSteps(ProvisionJob(account, groupWithoutGid), mode))
  {
    var groups: Plan := if groupWithoutGid && !account.ExistingAccount? then [ResolveNewGroups] else [];
    var steps := AccountSteps(account);
    AccountFollows(account);
    assert Follows([] + groups, steps);
    FollowsJoin([], groups, steps);
    PodFollows([] + (groups + steps));
    FollowsJoin([], groups + steps, POD_CREATE_STEPS);
    ProbesFollow([] + (groups + steps + POD_CREATE_STEPS), mode);
    FollowsJoin([], groups + steps + POD_CREATE_STEPS, Probes(mode));
  }

  lemma StillIn(a: Plan, b: Plan, s: StepName)
    requires s in a
    ensures s in a + b
  {
    var i :| 0 <= i < |a| && a[i] == s;
    assert (a + b)[i] == s;
  }

  lemma ThreeFollow(a: Plan, b: Plan, last: Plan)
    requires Follows([], a) && Follows(a, b) && Follows(a + b, last)
    ensures Follows([], a + b + last)
  {
    assert [] + a == a && [] + (a + b) == a + b;
    FollowsJoin([], a, b);
    FollowsJoin([], a + b, last);
  }

  lemma CleanupFollows(head: Plan, probes: Plan)
    requires CreateServices in head
    ensures Follows(head + probes, [MigrateCleanupOld])
  {
    StillIn(head, probes, CreateServices);
  }

  /** In every plan every step comes after what must have happened before it. */
  lemma StepsFollowTheirPrerequisites(job: Job, mode: Mode)
    ensures Follows([], JobSteps(job, mode))
  {
    match job {
      case MigrateJob =>
        MigrateHeadFollows();
        ProbesFollow(MIGRATE_HEAD, mode);
        CleanupFollows(MIGRATE_HEAD, Probes(mode));
        ThreeFollow(MIGRATE_HEAD, Probes(mode), [MigrateCleanupOld]);
      case ProvisionJob(account, groupWithoutGid) => ProvisionFollows(account, groupWithoutGid, mode);
      case RevokeJob(hasPod, deleteAccount) => RevocationFollows(hasPod, deleteAccount, mode);
      case _ =>
    }
  }

  // ---------- which steps a job has ----------

  /** What each step is for: the jobs that have it, and the modes in which they do. */
  ghost predicate Belongs(s: StepName, job: Job, mode: Mode) {
    match s
    case ResolveNewGroups => job.ProvisionJob? && job.groupWithoutGid && !job.account.ExistingAccount?
    case CreateAccount | CreateHome | CreateKrb5Principal | AwaitAdReplication => job.ProvisionJob? && job.account.NewAccount?
    case AddUserGroups | TriggerNasGssFlush => job.ProvisionJob? && job.account.GroupsOnly?
    case SyncAdGroups => job.ProvisionJob? && !job.account.ExistingAccount?
    case RestoreMissingHome => job.ProvisionJob? && !job.account.NewAccount?
    case SelectNode => job.ProvisionJob?
    case FetchUserConfig | PreparePod | BuildPodSpec | CreatePodK8s | WaitReady | CreateServices =>
      job.ProvisionJob? || job.MigrateJob?
    case MigrateSelectTarget | MigrateInheritPassword | MigrateCommitImage | MigrateCleanupOld => job.MigrateJob?
    case VerifyUid | VerifyKrb5 | VerifyHomeIo | VerifyGpu | VerifyEndpoint =>
      mode.Full? && (job.ProvisionJob? || job.MigrateJob?)
    case DeleteServices | ReleaseNodeports | DeletePodK8s | RemoveNodeImage | CleanupPodNodeKrb5 =>
      job.RevokeJob? && job.hasPod
    case CheckAccountRevocable | DeleteAccount | RemoveKrb5 => job.RevokeJob? && job.deleteAccount
    case CaptureAccessTargets | VerifyRevoked => mode.Full? && job.RevokeJob? && job.hasPod
    case VerifyAccountRevoked => mode.Full? && job.RevokeJob? && job.deleteAccount
    case ChangeLoginPassword => job.PasswordJob?
    case DeleteExpiredHome => job.HomeJob?
    case ChangePorts => job.PortJob?
    case SetAccountAccess => job.AccessJob?
    case GroupCreate => job == GroupJob(Create)
    case GroupAddMember => job == GroupJob(Add)
    case GroupRemoveMember => job == GroupJob(Remove)
  }

  /**
   * A job has exactly the steps it is for: an account is made only for a new one, a home is deleted by its own job
   * alone and by no revocation, and the mode decides about nothing but the probes.
   */
  lemma JobsHaveTheirSteps(job: Job, mode: Mode, s: StepName)
    ensures s in JobSteps(job, mode) <==> Belongs(s, job, mode)
  {
    match job {
      case ProvisionJob(account, groupWithoutGid) => OpeningsHaveTheirSteps(account, groupWithoutGid, mode, s);
      case RevokeJob(hasPod, deleteAccount) => RevocationsHaveTheirSteps(hasPod, deleteAccount, mode, s);
      case MigrateJob => MigrationsHaveTheirSteps(mode, s);
      case _ =>
    }
  }

  lemma OpeningsHaveTheirSteps(account: AccountPart, groupWithoutGid: bool, mode: Mode, s: StepName)
    ensures s in JobSteps(ProvisionJob(account, groupWithoutGid), mode) <==>
              Belongs(s, ProvisionJob(account, groupWithoutGid), mode)
  {
    OpeningByParts(account, groupWithoutGid, mode, s);
    AccountStepsAre(account, s);
    PodStepsAre(s);
    ProbesAre(mode, s);
    OpeningParts(account, groupWithoutGid, mode, s, s in AccountSteps(account), s in POD_CREATE_STEPS, s in Probes(mode));
  }

  lemma OpeningByParts(account: AccountPart, groupWithoutGid: bool, mode: Mode, s: StepName)
    ensures s in JobSteps(ProvisionJob(account, groupWithoutGid), mode) <==>
              || (groupWithoutGid && !account.ExistingAccount? && s == ResolveNewGroups)
              || s in AccountSteps(account) || s in POD_CREATE_STEPS || s in Probes(mode)
  {
  }

  lemma AccountStepsAre(account: AccountPart, s: StepName)
    ensures s in AccountSteps(account) <==>
              match account
              case NewAccount => s in {CreateAccount, CreateHome, CreateKrb5Principal, AwaitAdReplication, SyncAdGroups}
              case GroupsOnly => s in {AddUserGroups, SyncAdGroups, TriggerNasGssFlush, RestoreMissingHome}
              case ExistingAccount => s == RestoreMissingHome
  {
  }

  lemma PodStepsAre(s: StepName)
    ensures s in POD_CREATE_STEPS <==>
              s in {FetchUserConfig, PreparePod, SelectNode, BuildPodSpec, CreatePodK8s, WaitReady, CreateServices}
    ensures s in POD_DELETE_STEPS <==>
              s in {DeleteServices, ReleaseNodeports, DeletePodK8s, RemoveNodeImage, CleanupPodNodeKrb5}
  {
  }

  lemma ProbesAre(mode: Mode, s: StepName)
    ensures s in Probes(mode) <==> mode.Full? && s in {VerifyUid, VerifyKrb5, VerifyHomeIo, VerifyGpu, VerifyEndpoint}
  {
  }

  lemma OpeningParts(account: AccountPart, groupWithoutGid: bool, mode: Mode, s: StepName,
                     inAccount: bool, inPod: bool, inProbes: bool)
    requires inAccount <==>
               match account
               case NewAccount => s in {CreateAccount, CreateHome, CreateKrb5Principal, AwaitAdReplication, SyncAdGroups}
               case GroupsOnly => s in {AddUserGroups, SyncAdGroups, TriggerNasGssFlush, RestoreMissingHome}
               case ExistingAccount => s == RestoreMissingHome
    requires inPod <==>
               s in {FetchUserConfig, PreparePod, SelectNode, BuildPodSpec, CreatePodK8s, WaitReady, CreateServices}
    requires inProbes <==> mode.Full? && s in {VerifyUid, VerifyKrb5, VerifyHomeIo, VerifyGpu, VerifyEndpoint}
    ensures Belongs(s, ProvisionJob(account, groupWithoutGid), mode) <==>
              || (groupWithoutGid && !account.ExistingAccount? && s == ResolveNewGroups)
              || inAccount || inPod || inProbes
  {
  }

  lemma RevocationsHaveTheirSteps(hasPod: bool, deleteAccount: bool, mode: Mode, s: StepName)
    ensures s in JobSteps(RevokeJob(hasPod, deleteAccount), mode) <==> Belongs(s, RevokeJob(hasPod, deleteAccount), mode)
  {
    RevocationByParts(hasPod, deleteAccount, mode, s);
    PodStepsAre(s);
    RevocationParts(hasPod, deleteAccount, mode, s, s in POD_DELETE_STEPS);
  }

  lemma RevocationByParts(hasPod: bool, deleteAccount: bool, mode: Mode, s: StepName)
    ensures s in JobSteps(RevokeJob(hasPod, deleteAccount), mode) <==>
              || (hasPod && (s in POD_DELETE_STEPS || (mode.Full? && (s == CaptureAccessTargets || s == VerifyRevoked))))
              || (deleteAccount
                  && (s in {CheckAccountRevocable, DeleteAccount, RemoveKrb5} || (mode.Full? && s == VerifyAccountRevoked)))
  {
  }

  lemma RevocationParts(hasPod: bool, deleteAccount: bool, mode: Mode, s: StepName, inPod: bool)
    requires inPod <==> s in {DeleteServices, ReleaseNodeports, DeletePodK8s, RemoveNodeImage, CleanupPodNodeKrb5}
    ensures Belongs(s, RevokeJob(hasPod, deleteAccount), mode) <==>
              || (hasPod && (inPod || (mode.Full? && (s == CaptureAccessTargets || s == VerifyRevoked))))
              || (deleteAccount
                  && (s in {CheckAccountRevocable, DeleteAccount, RemoveKrb5} || (mode.Full? && s == VerifyAccountRevoked)))
  {
  }

  lemma MigrationsHaveTheirSteps(mode: Mode, s: StepName)
    ensures s in JobSteps(MigrateJob, mode) <==> Belongs(s, MigrateJob, mode)
  {
    MigrationByParts(mode, s);
    MigrateHeadIs(s);
    ProbesAre(mode, s);
    MigrationParts(mode, s, s in MIGRATE_HEAD, s in Probes(mode));
  }

  lemma MigrationByParts(mode: Mode, s: StepName)
    ensures s in JobSteps(MigrateJob, mode) <==> s in MIGRATE_HEAD || s in Probes(mode) || s == MigrateCleanupOld
  {
  }

  lemma MigrateHeadIs(s: StepName)
    ensures s in MIGRATE_HEAD <==>
              s in {MigrateSelectTarget, FetchUserConfig, MigrateInheritPassword, PreparePod, MigrateCommitImage,
                    BuildPodSpec, CreatePodK8s, WaitReady, CreateServices}
  {
  }

  lemma MigrationParts(mode: Mode, s: StepName, inHead: bool, inProbes: bool)
    requires inHead <==>
               s in {MigrateSelectTarget, FetchUserConfig, MigrateInheritPassword, PreparePod, MigrateCommitImage,
                     BuildPodSpec, CreatePodK8s, WaitReady, CreateServices}
    requires inProbes <==> mode.Full? && s in {VerifyUid, VerifyKrb5, VerifyHomeIo, VerifyGpu, VerifyEndpoint}
    ensures Belongs(s, MigrateJob, mode) <==> inHead || inProbes || s == MigrateCleanupOld
  {
  }
}
