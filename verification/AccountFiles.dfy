/** The account files as the program changes them: whole files replaced one after the other. */
module AccountFiles {
  import opened Prelude
  import opened Accounts
  import opened Creation

  /** The process dies after so many writes, or a part cannot be written; part 0 is the choice of a number. */
  datatype Fault = NoFault | Dies(after: Progress) | Fails(part: Progress)

  datatype Outcome = Finished | AlreadyExists | Broke(part: Progress) | Dead

  datatype Verdict = Accepted | RunAgain | Died

  /** The part at which a run breaks, if it gets that far: where the fault says, or at a conflicting group. */
  function FailingPart(l: Ledger, req: Request, uid: int, fault: Fault): Option<Progress> {
    var conflict := PrimaryConflict(l.groups, req.group, uid);
    match fault
    case NoFault => if conflict then Some(GROUPS) else None
    case Dies(k) => if conflict && k >= GROUPS then Some(GROUPS) else None
    case Fails(k) =>
      if k < GROUPS then Some(k)
      else if conflict then Some(GROUPS)
      else if k == SUDOERS && !req.sudo then None
      else Some(k)
  }

  lemma RollBackNext(lines: seq<Line<Group>>, k: nat, name: string, primaryGid: Option<int>)
    requires k < |lines|
    ensures TakeOut(true, lines[..k + 1], name, primaryGid)
            == TakeOut(true, lines[..k], name, primaryGid) + TakeOutLine(true, lines[k], name, primaryGid)
  {
    assert lines[..k + 1] == lines[..k] + [lines[k]];
    TakeOutAppend(true, lines[..k], [lines[k]], name, primaryGid);
    RollBackOne(lines[k], name, primaryGid);
  }

  /** One team after the other; a team without a line gets one. */
  method AddTo(groups: seq<Line<Group>>, teams: seq<Team>, name: string) returns (lines: seq<Line<Group>>)
    ensures lines == AddToTeams(groups, teams, name)
  {
    lines := groups;
    for k := 0 to |teams|
      invariant AddToTeams(lines, teams[k..], name) == AddToTeams(groups, teams, name)
    {
      assert teams[k..][0] == teams[k] && teams[k..][1..] == teams[k + 1..];
      lines := AddToTeam(lines, teams[k], name);
    }
  }

  /** No account, password or membership of the name is left. */
  ghost predicate TakenBack(l: Ledger, name: string) {
    && !Has(l.passwd, AccountName, name) && !Has(l.shadow, SecretName, name)
    && forall x :: x in l.groups && x.Rec? ==> name !in x.rec.members
  }

  class Files {
    var passwd: seq<Line<Account>>
    var groups: seq<Line<Group>>
    var shadow: seq<Line<Secret>>
    var sudoers: set<string>
    var marker: Option<int>

    constructor (l: Ledger)
      ensures Contents() == l && marker == None
    {
      passwd, groups, shadow, sudoers, marker := l.passwd, l.groups, l.shadow, l.sudoers, None;
    }

    function Contents(): Ledger
      reads this
    {
      Ledger(passwd, groups, shadow, sudoers)
    }

    /** The group lines without the user; a personal group that this leaves empty goes. */
    method CleanGroups(name: string, primaryGid: Option<int>) returns (cleaned: seq<Line<Group>>)
      ensures cleaned == TakeOut(true, groups, name, primaryGid)
    {
      var lines := groups;
      cleaned := [];
      for k := 0 to |lines|
        invariant cleaned == TakeOut(true, lines[..k], name, primaryGid)
      {
        RollBackNext(lines, k, name, primaryGid);
        if lines[k].Other? {
          cleaned := cleaned + [lines[k]];
        } else {
          var g := lines[k].rec;
          var members := if name in g.members then WithoutMember(g.members, name) else g.members;
          if name !in g.members { LeaveAfterJoin(g.members, name); }
          var personal := g.name == name || (primaryGid.Some? && g.gid == primaryGid.value);
          if !(personal && members == []) {
            cleaned := cleaned + [Rec(g.(members := members))];
          }
        }
      }
      assert lines[..|lines|] == lines;
    }

    /** Takes a user out of the account files, his empty personal group included, or dies after `cut` writes. */
    method RollBackUser(name: string, primaryGid: Option<int>, cut: nat) returns (whole: bool)
      modifies this
      ensures whole <==> cut >= 3
      ensures Contents() == RollBackUpTo(old(Contents()), name, primaryGid, cut)
      // the writes come in the order passwd, shadow, group
      ensures cut == 0 ==> Contents() == old(Contents())
      ensures cut <= 1 ==> shadow == old(shadow)
      ensures cut <= 2 ==> groups == old(groups)
      ensures cut >= 1 ==> !Has(passwd, AccountName, name)
      ensures cut >= 2 ==> !Has(shadow, SecretName, name)
      ensures whole ==> LinesStand(old(groups), groups, name, true, primaryGid)
      ensures marker == old(marker)
    {
      DropMembers(passwd, AccountName, name);
      DropMembers(shadow, SecretName, name);
      if cut == 0 {
        return false;
      }
      passwd := Drop(passwd, AccountName, name);
      if cut == 1 {
        return false;
      }
      shadow := Drop(shadow, SecretName, name);
      if cut == 2 {
        return false;
      }
      var cleaned := CleanGroups(name, primaryGid);
      groups := cleaned;
      TakeOutLeavesLines(old(groups), name, true, primaryGid);
      return true;
    }

    /** The group part: the personal group, then the member added to every team. */
    method WriteGroups(req: Request, gid: int) returns (ok: bool)
      modifies this`groups
      ensures ok <==> !PrimaryConflict(old(groups), req.group, gid)
      ensures groups == if ok then GroupsWritten(old(groups), req, gid) else old(groups)
    {
      if PrimaryConflict(groups, req.group, gid) {
        return false;
      }
      var lines := AddTo(WithPrimary(groups, req.group, gid), req.teams, req.name);
      groups := lines;
      return true;
    }

    /** The step for an account that exists already: every team, in one rewrite of the file. */
    method AddUserGroups(teams: seq<Team>, name: string)
      modifies this`groups
      ensures groups == AddToTeams(old(groups), teams, name)
    {
      var lines := AddTo(groups, teams, name);
      groups := lines;
    }

    /** A part has failed: the rollback, and what the step reports if it survives that. */
    method GiveUp(name: string, part: Progress, cut: nat) returns (outcome: Outcome)
      modifies this
      ensures outcome == if cut >= 3 then Broke(part) else Dead
      ensures Contents() == RollBackUpTo(old(Contents()), name, None, cut)
      ensures outcome.Broke? ==> TakenBack(Contents(), name)
      ensures marker == old(marker) && sudoers == old(sudoers)
    {
      RollBackTouchesOnlyTheName(Contents(), name, None);
      var whole := RollBackUser(name, None, cut);
      return if whole then Broke(part) else Dead;
    }

    /** The writes of the step, one after the other, and what each fault leaves of them. */
    method WriteAccount(req: Request, uid: int, fault: Fault, cut: nat) returns (outcome: Outcome)
      modifies this
      ensures outcome.AlreadyExists? <==> Has(old(passwd), AccountName, req.name)
      ensures outcome.AlreadyExists? ==> Contents() == old(Contents()) && marker == old(marker)
      ensures !outcome.AlreadyExists? ==>
                match FailingPart(old(Contents()), req, uid, fault)
                case None =>
                  if fault.Dies? then outcome.Dead? && Contents() == Written(old(Contents()), req, uid, fault.after)
                  else outcome.Finished? && Contents() == Written(old(Contents()), req, uid, SUDOERS)
                case Some(part) =>
                  if part < GROUPS then outcome == Broke(part) && Contents() == old(Contents())
                  else
                    && Contents() == FailedAt(old(Contents()), req, uid, part, cut)
                    && outcome == if cut >= 3 then Broke(part) else Dead
      ensures !outcome.AlreadyExists? ==>
                marker == if fault == Dies(0) || fault == Fails(0) then old(marker) else Some(uid)
      ensures outcome.Broke? && outcome.part >= GROUPS ==> TakenBack(Contents(), req.name)
      ensures outcome.Broke? ==> sudoers == old(sudoers)
    {
      if Has(passwd, AccountName, req.name) {
        return AlreadyExists;
      }
      if fault == Dies(0) || fault == Fails(0) {
        return if fault.Dies? then Dead else Broke(0);
      }
      marker := Some(uid);
      if fault == Dies(MARKED) {
        return Dead;
      }
      if fault == Fails(MARKED) || fault == Fails(PASSWD) {
        return Broke(fault.part);
      }
      passwd := passwd + [Rec(Account(req.name, uid, uid))];
      if fault == Dies(PASSWD) {
        return Dead;
      }
      var ok := fault != Fails(GROUPS);
      if ok {
        ok := WriteGroups(req, uid);
      }
      if !ok {
        outcome := GiveUp(req.name, GROUPS, cut);
        return;
      }
      if fault == Dies(GROUPS) {
        return Dead;
      }
      if fault == Fails(SHADOW) {
        outcome := GiveUp(req.name, SHADOW, cut);
        return;
      }
      shadow := shadow + [Rec(Secret(req.name, req.hash))];
      if fault == Dies(SHADOW) {
        return Dead;
      }
      if req.sudo {
        if fault == Fails(SUDOERS) {
          outcome := GiveUp(req.name, SUDOERS, cut);
          return;
        }
        sudoers := sudoers + {req.name};
      }
      if fault == Dies(SUDOERS) {
        return Dead;
      }
      return Finished;
    }

    /**
     * The account step with the number it was given; the marker goes in before the first line. `cut` is how many
     * writes its own rollback makes before the process dies, 3 if it survives.
     */
    method CreateAccount(req: Request, uid: int, fault: Fault, cut: nat) returns (outcome: Outcome)
      modifies this
      ensures outcome.AlreadyExists? <==> Has(old(passwd), AccountName, req.name)
      ensures outcome.AlreadyExists? ==> Contents() == old(Contents()) && marker == old(marker)
      ensures !outcome.AlreadyExists? ==>
                match FailingPart(old(Contents()), req, uid, fault)
                case None =>
                  if fault.Dies? then outcome.Dead? && Contents() == Written(old(Contents()), req, uid, fault.after)
                  else outcome.Finished? && Contents() == Written(old(Contents()), req, uid, SUDOERS)
                case Some(part) =>
                  if part < GROUPS then outcome == Broke(part) && Contents() == old(Contents())
                  else
                    && Contents() == FailedAt(old(Contents()), req, uid, part, cut)
                    && outcome == if cut >= 3 then Broke(part) else Dead
      ensures !outcome.AlreadyExists? ==>
                marker == if fault == Dies(0) || fault == Fails(0) then old(marker) else Some(uid)
      // a run that reports success has written everything, and the judge would say so
      ensures outcome.Finished? ==> Judged(Contents(), req, marker) == (true, Contents())
      ensures outcome.Finished? ==>
                && passwd == old(passwd) + [Rec(Account(req.name, uid, uid))]
                && shadow == old(shadow) + [Rec(Secret(req.name, req.hash))]
                && sudoers == (if req.sudo then old(sudoers) + {req.name} else old(sudoers))
                && OldLinesStand(old(groups), groups, req.name, set t | t in req.teams :: t.gid)
                && NewLinesBelong(old(groups), groups, req, uid)
                && (exists x :: x in groups && x.Rec? && x.rec.name == req.group && x.rec.gid == uid)
                && (forall gid, m :: InTeam(groups, gid, m) <==>
                      InTeam(old(groups), gid, m) || (m == req.name && exists t :: t in req.teams && t.gid == gid))
      // a run that reports a failure has taken back all it wrote of the user
      ensures outcome.Broke? ==>
                && passwd == old(passwd) && sudoers == old(sudoers)
                && if outcome.part < GROUPS then shadow == old(shadow) && groups == old(groups)
                   else TakenBack(Contents(), req.name)
      // nothing but a line of that name, a personal group that conflicts, or a fault keeps a run from finishing; a
      // fault of the sudoers file is none where no file is asked for
      ensures outcome.Finished? <==>
                && !Has(old(passwd), AccountName, req.name)
                && (fault.NoFault? || (fault == Fails(SUDOERS) && !req.sudo))
                && forall x :: x in old(groups) && x.Rec? ==> (x.rec.gid == uid <==> x.rec.name == req.group)
    {
      outcome := WriteAccount(req, uid, fault, cut);
      if outcome.Finished? {
        JudgeAcceptsExactly(old(Contents()), req, uid, SUDOERS);
        FinishedInFiles(old(Contents()), req, uid);
      }
      if !outcome.AlreadyExists? {
        DropAdded(old(passwd), Account(req.name, uid, uid), AccountName);
      }
    }

    /**
     * Settles an interrupted attempt: accepts a finished account, takes back an unfinished one, and may die after
     * `cut` writes of that.
     */
    method JudgeInterrupted(req: Request, cut: nat) returns (verdict: Verdict)
      modifies this
      ensures verdict.Accepted? <==> Accepts(old(Contents()), req, old(marker))
      ensures verdict.Accepted? <==>
                && FindAccount(old(passwd), req.name).Some? && old(marker) == Some(FindAccount(old(passwd), req.name).value.uid)
                && (exists x :: x in old(groups) && x.Rec? && x.rec.name == req.group
                                && x.rec.gid == FindAccount(old(passwd), req.name).value.gid)
                && (forall t :: t in req.teams ==>
                      exists x :: x in old(groups) && x.Rec? && x.rec.gid == t.gid && req.name in x.rec.members)
                && (exists x :: x in old(shadow) && x.Rec? && x.rec.name == req.name)
                && (req.sudo ==> req.name in old(sudoers))
      ensures verdict.Died? <==> OwnAccount(old(Contents()), req, old(marker)).Some? && !verdict.Accepted? && cut < 3
      ensures Contents() == CutJudge(old(Contents()), req, old(marker), cut)
      ensures marker == old(marker)
    {
      if marker.None? {
        return RunAgain;
      }
      var entry := FindAccount(passwd, req.name);
      if entry.None? || entry.value.uid != marker.value {
        return RunAgain;
      }
      var missing := !PrimaryPresent(groups, req.group, entry.value.gid);
      for k := 0 to |req.teams|
        invariant missing <==>
                    !PrimaryPresent(groups, req.group, entry.value.gid) || !TeamsPresent(groups, req.(teams := req.teams[..k]))
      {
        assert req.teams[..k + 1] == req.teams[..k] + [req.teams[k]];
        if !InTeam(groups, req.teams[k].gid, req.name) {
          missing := true;
        }
      }
      assert req.teams[..|req.teams|] == req.teams;
      if !Has(shadow, SecretName, req.name) || (req.sudo && req.name !in sudoers) {
        missing := true;
      }
      if missing {
        var whole := RollBackUser(req.name, Some(entry.value.gid), cut);
        return if whole then RunAgain else Died;
      }
      return Accepted;
    }
  }
}
