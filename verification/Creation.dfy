/**
 * Creating an account: the marker, then the passwd line, the group lines, the shadow line and the sudoers file.
 * The process may die between any two of these writes, and any part may fail and be rolled back. Whoever takes
 * the job over asks a judge whether the account was finished.
 */
module Creation {
  import opened Prelude
  import opened Accounts

  /** How far a creation came: how many of its five writes it has made, the marker being the first. */
  type Progress = k: nat | k <= 5

  const MARKED: Progress := 1
  const PASSWD: Progress := 2
  const GROUPS: Progress := 3
  const SHADOW: Progress := 4
  const SUDOERS: Progress := 5

  /** The account files after the first `k` writes. */
  function Written(l: Ledger, req: Request, uid: int, k: Progress): Ledger {
    Ledger(
      if k >= PASSWD then l.passwd + [Rec(Account(req.name, uid, uid))] else l.passwd,
      if k >= GROUPS then GroupsWritten(l.groups, req, uid) else l.groups,
      if k >= SHADOW then l.shadow + [Rec(Secret(req.name, req.hash))] else l.shadow,
      if k >= SUDOERS && req.sudo then l.sudoers + {req.name} else l.sudoers)
  }

  /** Nothing is left to write. */
  predicate Complete(req: Request, k: Progress) {
    k == SUDOERS || (k == SHADOW && !req.sudo)
  }

  predicate TeamsPresent(groups: seq<Line<Group>>, req: Request) {
    forall t :: t in req.teams ==> InTeam(groups, t.gid, req.name)
  }

  predicate GroupsPresent(groups: seq<Line<Group>>, req: Request, gid: int) {
    PrimaryPresent(groups, req.group, gid) && TeamsPresent(groups, req)
  }

  predicate AllPresent(l: Ledger, req: Request, gid: int) {
    && GroupsPresent(l.groups, req, gid)
    && Has(l.shadow, SecretName, req.name)
    && (req.sudo ==> req.name in l.sudoers)
  }

  /** The account the marked attempt has written, if it is there. */
  function OwnAccount(l: Ledger, req: Request, marker: Option<int>): Option<Account> {
    match FindAccount(l.passwd, req.name)
    case Some(a) => if marker == Some(a.uid) then Some(a) else None
    case None => None
  }

  /** The files a judge leaves that dies after `j` writes of its rollback, if it has to roll back at all. */
  function CutJudge(l: Ledger, req: Request, marker: Option<int>, j: nat): Ledger {
    match OwnAccount(l, req, marker)
    case Some(a) => if AllPresent(l, req, a.gid) then l else RollBackUpTo(l, req.name, Some(a.gid), j)
    case None => l
  }

  predicate Accepts(l: Ledger, req: Request, marker: Option<int>) {
    match OwnAccount(l, req, marker)
    case Some(a) => AllPresent(l, req, a.gid)
    case None => false
  }

  /** The judge: whether the account is finished, and the files it leaves. */
  function Judged(l: Ledger, req: Request, marker: Option<int>): (bool, Ledger) {
    (Accepts(l, req, marker), CutJudge(l, req, marker, 3))
  }

  // ---------- when the judge finds the account finished ----------

  lemma WithPrimaryPresent(groups: seq<Line<Group>>, group: string, gid: int)
    ensures PrimaryPresent(WithPrimary(groups, group, gid), group, gid)
  {
  }

  lemma AddToTeamKeeps(groups: seq<Line<Group>>, team: Team, name: string, group: string, gid: int)
    ensures InTeam(AddToTeam(groups, team, name), team.gid, name)
    ensures PrimaryPresent(groups, group, gid) ==> PrimaryPresent(AddToTeam(groups, team, name), group, gid)
    ensures forall t :: InTeam(groups, t, name) ==> InTeam(AddToTeam(groups, team, name), t, name)
  {
  }

  lemma {:induction false} AddToTeamsPresent(groups: seq<Line<Group>>, teams: seq<Team>, name: string, group: string, gid: int)
    requires PrimaryPresent(groups, group, gid)
    ensures PrimaryPresent(AddToTeams(groups, teams, name), group, gid)
    ensures forall t :: InTeam(groups, t, name) ==> InTeam(AddToTeams(groups, teams, name), t, name)
    ensures forall t :: t in teams ==> InTeam(AddToTeams(groups, teams, name), t.gid, name)
    decreases |teams|
  {
    if teams != [] {
      AddToTeamKeeps(groups, teams[0], name, group, gid);
      AddToTeamsPresent(AddToTeam(groups, teams[0], name), teams[1..], name, group, gid);
    }
  }

  /** The group part, once written, is complete. */
  lemma GroupsWrittenPresent(groups: seq<Line<Group>>, req: Request, uid: int)
    ensures GroupsPresent(GroupsWritten(groups, req, uid), req, uid)
  {
    WithPrimaryPresent(groups, req.group, uid);
    AddToTeamsPresent(WithPrimary(groups, req.group, uid), req.teams, req.name, req.group, uid);
  }

  lemma {:induction false} FindAppended(passwd: seq<Line<Account>>, a: Account)
    requires !Has(passwd, AccountName, a.name)
    ensures FindAccount(passwd + [Rec(a)], a.name) == Some(a)
  {
  }

  // ---------- what a creation writes, in terms of the files ----------

  /** The old lines stand in their places, with the user added where a team has the number; no other member comes. */
  ghost predicate OldLinesStand(before: seq<Line<Group>>, after: seq<Line<Group>>, name: string, gids: set<int>) {
    && |before| <= |after|
    && forall k :: 0 <= k < |before| ==>
         match before[k]
         case Other(_) => after[k] == before[k]
         case Rec(g) =>
           after[k] == if g.gid in gids && name !in g.members then Rec(Group(g.name, g.gid, g.members + [name])) else before[k]
  }

  /** Every line behind them is the personal group's or that of a team that had none. */
  ghost predicate NewLinesBelong(before: seq<Line<Group>>, after: seq<Line<Group>>, req: Request, uid: int) {
    forall k :: |before| <= k < |after| ==>
      || after[k] == Rec(Group(req.group, uid, [])) || after[k] == Rec(Group(req.group, uid, [req.name]))
      || exists t :: t in req.teams && after[k] == Rec(Group(t.name, t.gid, [req.name]))
  }

  lemma GroupsInFiles(groups: seq<Line<Group>>, req: Request, uid: int)
    ensures var after := GroupsWritten(groups, req, uid);
            && OldLinesStand(groups, after, req.name, TeamGids(req.teams))
            && NewLinesBelong(groups, after, req, uid)
  {
    var with := WithPrimary(groups, req.group, uid);
    var after := GroupsWritten(groups, req, uid);
    AddToTeamsAtOnce(with, req.teams, req.name);
    var joined, missing := Join(with, TeamGids(req.teams), req.name), Missing(Gids(with), req.teams);
    assert after == joined + TeamLines(missing, [req.name]);
    forall k | |groups| <= k < |after|
      ensures after[k] == Rec(Group(req.group, uid, [])) || after[k] == Rec(Group(req.group, uid, [req.name]))
              || exists t :: t in req.teams && after[k] == Rec(Group(t.name, t.gid, [req.name]))
    {
      if k < |with| {
        assert with[k] == Rec(Group(req.group, uid, []));
        assert [] + [req.name] == [req.name];
      } else {
        assert after[k] == TeamLines(missing, [req.name])[k - |with|];
        assert missing[k - |with|] in missing;
      }
    }
  }

  lemma PrimaryKeepsTeams(groups: seq<Line<Group>>, group: string, uid: int, gid: int, m: string)
    ensures InTeam(WithPrimary(groups, group, uid), gid, m) <==> InTeam(groups, gid, m)
  {
  }

  /** A finished creation, file by file: the old lines, one of the account in passwd and shadow, his groups, his policy. */
  lemma FinishedInFiles(l: Ledger, req: Request, uid: int)
    ensures var after := Written(l, req, uid, SUDOERS);
            && after.passwd == l.passwd + [Rec(Account(req.name, uid, uid))]
            && after.shadow == l.shadow + [Rec(Secret(req.name, req.hash))]
            && after.sudoers == (if req.sudo then l.sudoers + {req.name} else l.sudoers)
            && OldLinesStand(l.groups, after.groups, req.name, set t | t in req.teams :: t.gid)
            && NewLinesBelong(l.groups, after.groups, req, uid)
            && (exists x :: x in after.groups && x.Rec? && x.rec.name == req.group && x.rec.gid == uid)
            && (forall gid, m :: InTeam(after.groups, gid, m) <==>
                  InTeam(l.groups, gid, m) || (m == req.name && exists t :: t in req.teams && t.gid == gid))
  {
    var after := GroupsWritten(l.groups, req, uid);
    GroupsInFiles(l.groups, req, uid);
    GroupsWrittenPresent(l.groups, req, uid);
    forall gid, m
      ensures InTeam(after, gid, m) <==> InTeam(l.groups, gid, m) || (m == req.name && exists t :: t in req.teams && t.gid == gid)
    {
      AddToTeamsAddsExactly(WithPrimary(l.groups, req.group, uid), req.teams, req.name, gid, m);
      PrimaryKeepsTeams(l.groups, req.group, uid, gid, m);
    }
  }

  /** Cut off after `k` writes, the marker being the first: passwd, group, shadow and sudoers come in this order. */
  lemma CutOffInFiles(l: Ledger, req: Request, uid: int, k: Progress)
    ensures var cut, whole := Written(l, req, uid, k), Written(l, req, uid, SUDOERS);
            && cut.passwd == (if k >= 2 then whole.passwd else l.passwd)
            && cut.groups == (if k >= 3 then whole.groups else l.groups)
            && cut.shadow == (if k >= 4 then whole.shadow else l.shadow)
            && cut.sudoers == (if k >= 5 then whole.sudoers else l.sudoers)
  {
  }

  /**
   * The judge finds an interrupted creation finished exactly when the passwd line was written and every part
   * still to be written had been there before.
   */
  lemma JudgeAcceptsExactly(l: Ledger, req: Request, uid: int, k: Progress)
    requires !Has(l.passwd, AccountName, req.name)
    ensures Judged(Written(l, req, uid, k), req, Some(uid)).0 <==>
              && k >= PASSWD
              && (k >= GROUPS || GroupsPresent(l.groups, req, uid))
              && (k >= SHADOW || Has(l.shadow, SecretName, req.name))
              && (k >= SUDOERS || (req.sudo ==> req.name in l.sudoers))
  {
    var w := Written(l, req, uid, k);
    if k >= PASSWD {
      FindAppended(l.passwd, Account(req.name, uid, uid));
      GroupsWrittenPresent(l.groups, req, uid);
      var secret := Rec(Secret(req.name, req.hash));
      assert secret in l.shadow + [secret] && SecretName(secret.rec) == req.name;
    }
  }

  /**
   * The files hold nothing of the name and nothing of the number; the personal group's name is free; the teams'
   * numbers and names are not the account's.
   */
  ghost predicate CleanStart(l: Ledger, req: Request, uid: int) {
    && !Has(l.passwd, AccountName, req.name) && !Has(l.shadow, SecretName, req.name)
    && req.name !in l.sudoers
    && (forall x :: x in l.groups && x.Rec? ==>
          req.name !in x.rec.members && x.rec.gid != uid && x.rec.name != req.group && x.rec.name != req.name)
    && (forall t :: t in req.teams ==> t.gid != uid && t.name != req.name && t.name != req.group)
  }

  /** From a clean start it accepts exactly the finished creation. */
  lemma JudgeAcceptsTheFinished(l: Ledger, req: Request, uid: int, k: Progress)
    requires CleanStart(l, req, uid)
    ensures Judged(Written(l, req, uid, k), req, Some(uid)).0 <==> Complete(req, k)
  {
    JudgeAcceptsExactly(l, req, uid, k);
  }

  /** An account of another number is somebody else's: the judge refuses and changes nothing. */
  lemma ForeignAccountIsLeftAlone(l: Ledger, req: Request, marker: Option<int>)
    ensures var a := FindAccount(l.passwd, req.name);
            marker.None? || a.None? || a.value.uid != marker.value ==> Judged(l, req, marker) == (false, l)
  {
  }

  // ---------- what a refusal leaves ----------

  /** The teams whose lines the creation has to write itself, in order and without repeats. */
  function Missing(gids: set<int>, teams: seq<Team>): (r: seq<Team>)
    ensures forall t :: t in r ==> t in teams && t.gid !in gids
    decreases |teams|
  {
    if teams == [] then []
    else if teams[0].gid in gids then Missing(gids, teams[1..])
    else [teams[0]] + Missing(gids + {teams[0].gid}, teams[1..])
  }

  function TeamLines(teams: seq<Team>, members: seq<string>): (r: seq<Line<Group>>)
    ensures |r| == |teams|
    ensures forall k :: 0 <= k < |r| ==> r[k] == Rec(Group(teams[k].name, teams[k].gid, members))
  {
    seq(|teams|, k requires 0 <= k < |teams| => Rec(Group(teams[k].name, teams[k].gid, members)))
  }

  function TeamGids(teams: seq<Team>): set<int> {
    set t | t in teams :: t.gid
  }

  lemma GidsAppend(a: seq<Line<Group>>, b: seq<Line<Group>>)
    ensures Gids(a + b) == Gids(a) + Gids(b)
  {
  }

  lemma JoinKeepsGids(groups: seq<Line<Group>>, gids: set<int>, name: string)
    ensures Gids(Join(groups, gids, name)) == Gids(groups)
  {
  }

  lemma JoinTwice(groups: seq<Line<Group>>, a: set<int>, b: set<int>, name: string)
    ensures Join(Join(groups, a, name), b, name) == Join(groups, a + b, name)
  {
  }

  /** Adding to all teams at once: lines that are there get the member, the others are appended with him alone. */
  function AddedAtOnce(groups: seq<Line<Group>>, teams: seq<Team>, name: string): seq<Line<Group>> {
    Join(groups, TeamGids(teams), name) + TeamLines(Missing(Gids(groups), teams), [name])
  }

  lemma OneTeamFound(groups: seq<Line<Group>>, teams: seq<Team>, name: string)
    requires teams != [] && teams[0].gid in Gids(groups)
    ensures AddedAtOnce(Join(groups, {teams[0].gid}, name), teams[1..], name) == AddedAtOnce(groups, teams, name)
  {
    var g := teams[0].gid;
    TeamGidsCons(teams);
    JoinKeepsGids(groups, {g}, name);
    JoinTwice(groups, {g}, TeamGids(teams[1..]), name);
  }

  lemma AddedAfterOne(groups: seq<Line<Group>>, line: Line<Group>, rest: seq<Team>, name: string)
    requires line.Rec? && line.rec.gid !in Gids(groups) && name in line.rec.members
    ensures AddedAtOnce(groups + [line], rest, name)
            == Join(groups, {line.rec.gid} + TeamGids(rest), name) + [line]
               + TeamLines(Missing(Gids(groups) + {line.rec.gid}, rest), [name])
  {
    GidsWithLine(groups, line.rec);
    JoinNewLine(groups, line, line.rec.gid, TeamGids(rest), name);
  }

  lemma MissingOneMore(groups: seq<Line<Group>>, teams: seq<Team>, name: string)
    requires teams != [] && teams[0].gid !in Gids(groups)
    ensures var missing := Missing(Gids(groups) + {teams[0].gid}, teams[1..]);
            TeamLines(Missing(Gids(groups), teams), [name])
            == [Rec(Group(teams[0].name, teams[0].gid, [name]))] + TeamLines(missing, [name])
  {
    var missing := Missing(Gids(groups) + {teams[0].gid}, teams[1..]);
    assert Missing(Gids(groups), teams) == [teams[0]] + missing;
    TeamLinesCons(teams[0], missing, [name]);
  }

  lemma TeamLinesCons(team: Team, rest: seq<Team>, members: seq<string>)
    ensures TeamLines([team] + rest, members) == [Rec(Group(team.name, team.gid, members))] + TeamLines(rest, members)
  {
    var all := TeamLines([team] + rest, members);
    forall k | 0 <= k < |all|
      ensures all[k] == ([Rec(Group(team.name, team.gid, members))] + TeamLines(rest, members))[k]
    {
      assert k > 0 ==> ([team] + rest)[k] == rest[k - 1];
    }
  }

  lemma OneTeamMissing(groups: seq<Line<Group>>, teams: seq<Team>, name: string)
    requires teams != [] && teams[0].gid !in Gids(groups)
    ensures AddedAtOnce(groups + [Rec(Group(teams[0].name, teams[0].gid, [name]))], teams[1..], name)
            == AddedAtOnce(groups, teams, name)
  {
    var line := Rec(Group(teams[0].name, teams[0].gid, [name]));
    TeamGidsCons(teams);
    AddedAfterOne(groups, line, teams[1..], name);
    MissingOneMore(groups, teams, name);
    Regroup(Join(groups, TeamGids(teams), name), [line],
            TeamLines(Missing(Gids(groups) + {teams[0].gid}, teams[1..]), [name]));
  }

  lemma Regroup<T>(a: seq<T>, b: seq<T>, c: seq<T>)
    ensures a + b + c == a + (b + c)
  {
  }

  lemma GidsWithLine(groups: seq<Line<Group>>, g: Group)
    ensures Gids(groups + [Rec(g)]) == Gids(groups) + {g.gid}
  {
  }

  lemma TeamGidsCons(teams: seq<Team>)
    requires teams != []
    ensures TeamGids(teams) == {teams[0].gid} + TeamGids(teams[1..])
  {
  }

  lemma JoinNewLine(groups: seq<Line<Group>>, line: Line<Group>, gid: int, gids: set<int>, name: string)
    requires gid !in Gids(groups) && line.Rec? && name in line.rec.members
    ensures Join(groups + [line], gids, name) == Join(groups, {gid} + gids, name) + [line]
  {
  }

  lemma {:induction false} AddToTeamsAtOnce(groups: seq<Line<Group>>, teams: seq<Team>, name: string)
    ensures AddToTeams(groups, teams, name) == AddedAtOnce(groups, teams, name)
    decreases |teams|
  {
    if teams == [] {
      assert Join(groups, {}, name) == groups;
      assert TeamGids(teams) == {};
    } else {
      AddToTeamsAtOnce(AddToTeam(groups, teams[0], name), teams[1..], name);
      if teams[0].gid in Gids(groups) {
        OneTeamFound(groups, teams, name);
      } else {
        OneTeamMissing(groups, teams, name);
      }
    }
  }

  lemma JoinedLineRollsBack(l: Line<Group>, gids: set<int>, name: string, primaryGid: Option<int>)
    requires l.Rec? ==> name !in l.rec.members && l.rec.name != name && Some(l.rec.gid) != primaryGid
    ensures TakeOutLine(true, JoinLine(l, gids, name), name, primaryGid) == [l]
  {
    if l.Rec? { LeaveAfterJoin(l.rec.members, name); }
  }

  lemma JoinCons(groups: seq<Line<Group>>, gids: set<int>, name: string)
    requires groups != []
    ensures Join(groups, gids, name) == [JoinLine(groups[0], gids, name)] + Join(groups[1..], gids, name)
  {
  }

  /** Who joined leaves again: the lines are as they were. */
  lemma {:induction false} RollBackJoined(groups: seq<Line<Group>>, gids: set<int>, name: string, primaryGid: Option<int>)
    requires forall l :: l in groups && l.Rec? ==>
               name !in l.rec.members && l.rec.name != name && Some(l.rec.gid) != primaryGid
    ensures TakeOut(true, Join(groups, gids, name), name, primaryGid) == groups
  {
    if groups != [] {
      assert groups[0] in groups && forall x :: x in groups[1..] ==> x in groups;
      RollBackJoined(groups[1..], gids, name, primaryGid);
      JoinCons(groups, gids, name);
      JoinedLineRollsBack(groups[0], gids, name, primaryGid);
      TakeOutAppend(true, [JoinLine(groups[0], gids, name)], Join(groups[1..], gids, name), name, primaryGid);
      RollBackOne(JoinLine(groups[0], gids, name), name, primaryGid);
    }
  }

  lemma {:induction false} RollBackTeamLines(teams: seq<Team>, name: string, primaryGid: Option<int>)
    requires forall t :: t in teams ==> t.name != name && Some(t.gid) != primaryGid
    ensures TakeOut(true, TeamLines(teams, [name]), name, primaryGid) == TeamLines(teams, [])
  {
    if teams != [] {
      var t := teams[0];
      assert t in teams && forall x :: x in teams[1..] ==> x in teams;
      RollBackTeamLines(teams[1..], name, primaryGid);
      assert TeamLines(teams, [name])[1..] == TeamLines(teams[1..], [name]);
      RollBackTeamLine(t, name, primaryGid);
      assert TeamLines(teams, []) == [Rec(Group(t.name, t.gid, []))] + TeamLines(teams[1..], []);
    }
  }

  lemma RollBackTeamLine(t: Team, name: string, primaryGid: Option<int>)
    requires t.name != name && Some(t.gid) != primaryGid
    ensures TakeOutLine(true, Rec(Group(t.name, t.gid, [name])), name, primaryGid) == [Rec(Group(t.name, t.gid, []))]
  {
    LeaveAfterJoin([], name);
    assert [] + [name] == [name];
  }

  /** The lines written for the teams that had none. */
  function NewTeams(l: Ledger, req: Request): seq<Team> {
    Missing(Gids(l.groups), req.teams)
  }

  lemma {:induction false} MissingWithout(gids: set<int>, uid: int, teams: seq<Team>)
    requires forall t :: t in teams ==> t.gid != uid
    ensures Missing(gids + {uid}, teams) == Missing(gids, teams)
    decreases |teams|
  {
    if teams != [] {
      var g := teams[0].gid;
      assert teams[0] in teams && forall t :: t in teams[1..] ==> t in teams;
      MissingWithout(gids, uid, teams[1..]);
      MissingWithout(gids + {g}, uid, teams[1..]);
      assert gids + {uid} + {g} == gids + {g} + {uid};
    }
  }

  /** From a clean start the group part appends the personal group and the missing teams. */
  lemma GroupsWrittenClean(groups: seq<Line<Group>>, req: Request, uid: int)
    requires forall x :: x in groups && x.Rec? ==> x.rec.gid != uid
    requires forall t :: t in req.teams ==> t.gid != uid
    ensures GroupsWritten(groups, req, uid)
            == Join(groups, TeamGids(req.teams), req.name) + [Rec(Group(req.group, uid, []))]
               + TeamLines(Missing(Gids(groups), req.teams), [req.name])
  {
    var personal := Rec(Group(req.group, uid, []));
    var with := groups + [personal];
    assert WithPrimary(groups, req.group, uid) == with;
    AddToTeamsAtOnce(with, req.teams, req.name);
    GidsWithLine(groups, personal.rec);
    MissingWithout(Gids(groups), uid, req.teams);
    assert Join(with, TeamGids(req.teams), req.name) == Join(groups, TeamGids(req.teams), req.name) + [personal];
  }

  /** The groups after rolling an interrupted creation back: the new team lines stay, empty. */
  lemma GroupsRolledBack(l: Ledger, req: Request, uid: int, primaryGid: Option<int>)
    requires CleanStart(l, req, uid) && (primaryGid.None? || primaryGid == Some(uid))
    ensures TakeOut(true, GroupsWritten(l.groups, req, uid), req.name, primaryGid)
            == l.groups + (if req.group == req.name || primaryGid.Some? then [] else [Rec(Group(req.group, uid, []))])
               + TeamLines(NewTeams(l, req), [])
  {
    var joined := Join(l.groups, TeamGids(req.teams), req.name);
    var personal := Rec(Group(req.group, uid, []));
    var teams := TeamLines(NewTeams(l, req), [req.name]);
    GroupsWrittenClean(l.groups, req, uid);
    RollBackThree(joined, personal, teams, req.name, primaryGid);
    RollBackJoined(l.groups, TeamGids(req.teams), req.name, primaryGid);
    RollBackTeamLines(NewTeams(l, req), req.name, primaryGid);
  }

  lemma RollBackThree(a: seq<Line<Group>>, line: Line<Group>, b: seq<Line<Group>>, name: string, primaryGid: Option<int>)
    ensures TakeOut(true, a + [line] + b, name, primaryGid)
            == TakeOut(true, a, name, primaryGid) + TakeOutLine(true, line, name, primaryGid) + TakeOut(true, b, name, primaryGid)
  {
    TakeOutAppend(true, a + [line], b, name, primaryGid);
    TakeOutAppend(true, a, [line], name, primaryGid);
    RollBackOne(line, name, primaryGid);
  }

  lemma RollBackOne(line: Line<Group>, name: string, primaryGid: Option<int>)
    ensures TakeOut(true, [line], name, primaryGid) == TakeOutLine(true, line, name, primaryGid)
  {
  }

  lemma RollBackUntouchedGroups(l: Ledger, req: Request, uid: int, primaryGid: Option<int>)
    requires CleanStart(l, req, uid) && (primaryGid.None? || primaryGid == Some(uid))
    ensures TakeOut(true, l.groups, req.name, primaryGid) == l.groups
  {
    assert Join(l.groups, {}, req.name) == l.groups;
    RollBackJoined(l.groups, {}, req.name, primaryGid);
  }

  /** What is left of an attempt that wrote `k` parts and was rolled back in full. */
  function Remains(l: Ledger, req: Request, k: Progress): Ledger {
    if k >= GROUPS then l.(groups := l.groups + TeamLines(NewTeams(l, req), [])) else l
  }

  /** A refused attempt is taken back completely, but for the empty lines of teams it had to write. */
  lemma RefusalRestores(l: Ledger, req: Request, uid: int, k: Progress)
    requires CleanStart(l, req, uid) && !Complete(req, k)
    ensures Judged(Written(l, req, uid, k), req, Some(uid)) == (false, Remains(l, req, k))
  {
    var w := Written(l, req, uid, k);
    JudgeAcceptsTheFinished(l, req, uid, k);
    if k >= PASSWD {
      FindAppended(l.passwd, Account(req.name, uid, uid));
      DropAdded(l.passwd, Account(req.name, uid, uid), AccountName);
      DropAdded(l.shadow, Secret(req.name, req.hash), SecretName);
      DropNothing(l.shadow, SecretName, req.name);
      GroupsRolledBack(l, req, uid, Some(uid));
      RollBackUntouchedGroups(l, req, uid, Some(uid));
      assert l.groups + [] == l.groups;
    }
  }

  // ---------- resuming ----------

  /** The same account files, the group lines in whatever order. */
  ghost predicate SameFiles(a: Ledger, b: Ledger) {
    a.passwd == b.passwd && a.shadow == b.shadow && a.sudoers == b.sudoers && multiset(a.groups) == multiset(b.groups)
  }

  lemma {:induction false} NothingMissing(gids: set<int>, teams: seq<Team>)
    requires TeamGids(teams) <= gids
    ensures Missing(gids, teams) == []
    decreases |teams|
  {
    if teams != [] {
      assert teams[0].gid in TeamGids(teams);
      assert TeamGids(teams[1..]) <= TeamGids(teams);
      NothingMissing(gids, teams[1..]);
    }
  }

  lemma {:induction false} MissingCovers(gids: set<int>, teams: seq<Team>)
    ensures TeamGids(teams) <= gids + TeamGids(Missing(gids, teams))
    decreases |teams|
  {
    if teams != [] {
      var g := teams[0].gid;
      assert TeamGids(teams) == {g} + TeamGids(teams[1..]);
      if g in gids {
        MissingCovers(gids, teams[1..]);
      } else {
        MissingCovers(gids + {g}, teams[1..]);
        assert TeamGids([teams[0]] + Missing(gids + {g}, teams[1..])) == {g} + TeamGids(Missing(gids + {g}, teams[1..])) by {
          assert teams[0] in [teams[0]];
        }
      }
    }
  }

  lemma TeamLinesGids(teams: seq<Team>, members: seq<string>)
    ensures Gids(TeamLines(teams, members)) == TeamGids(teams)
  {
  }

  /** The team lines left empty are joined like any other. */
  lemma JoinTeamLines(teams: seq<Team>, gids: set<int>, name: string)
    requires TeamGids(teams) <= gids
    ensures Join(TeamLines(teams, []), gids, name) == TeamLines(teams, [name])
  {
    forall k | 0 <= k < |teams|
      ensures Join(TeamLines(teams, []), gids, name)[k] == TeamLines(teams, [name])[k]
    {
      assert teams[k] in teams;
      assert teams[k].gid in TeamGids(teams);
      assert [] + [name] == [name];
    }
  }

  lemma JoinAppend(a: seq<Line<Group>>, b: seq<Line<Group>>, gids: set<int>, name: string)
    ensures Join(a + b, gids, name) == Join(a, gids, name) + Join(b, gids, name)
  {
  }

  /** The lines a refused attempt leaves, and the lines written onto them: only the order differs. */
  lemma GroupsWrittenOnRemains(l: Ledger, req: Request, uid: int)
    requires CleanStart(l, req, uid)
    ensures var added := TeamLines(NewTeams(l, req), [req.name]);
            GroupsWritten(l.groups + TeamLines(NewTeams(l, req), []), req, uid)
            == Join(l.groups, TeamGids(req.teams), req.name) + added + [Rec(Group(req.group, uid, []))]
  {
    var left := TeamLines(NewTeams(l, req), []);
    var again := l.groups + left;
    TeamLinesGids(NewTeams(l, req), []);
    GidsAppend(l.groups, left);
    MissingCovers(Gids(l.groups), req.teams);
    NothingMissing(Gids(again), req.teams);
    assert TeamGids(NewTeams(l, req)) <= TeamGids(req.teams);
    JoinTeamLines(NewTeams(l, req), TeamGids(req.teams), req.name);
    JoinAppend(l.groups, left, TeamGids(req.teams), req.name);
    RemainsKeepTheNumberFree(l, req, uid);
    GroupsWrittenClean(again, req, uid);
    assert TeamLines([], [req.name]) == [];
  }

  lemma RemainsKeepTheNumberFree(l: Ledger, req: Request, uid: int)
    requires CleanStart(l, req, uid)
    ensures forall x :: x in l.groups + TeamLines(NewTeams(l, req), []) && x.Rec? ==> x.rec.gid != uid
  {
  }

  /** Writing the groups again after a refused attempt gives the lines a first attempt would have given. */
  lemma GroupsWrittenAgain(l: Ledger, req: Request, uid: int)
    requires CleanStart(l, req, uid)
    ensures multiset(GroupsWritten(l.groups + TeamLines(NewTeams(l, req), []), req, uid))
            == multiset(GroupsWritten(l.groups, req, uid))
  {
    GroupsWrittenOnRemains(l, req, uid);
    GroupsWrittenClean(l.groups, req, uid);
  }

  /** A refused attempt leaves nothing in the way of the next. */
  lemma RemainsDoNotConflict(l: Ledger, req: Request, k: Progress, uid: int)
    requires CleanStart(l, req, uid)
    ensures !PrimaryConflict(Remains(l, req, k).groups, req.group, uid)
  {
  }

  /** The files after one judge after the other has died, each after so many writes of its rollback. */
  function CutJudges(l: Ledger, req: Request, marker: Option<int>, cuts: seq<nat>): Ledger
    decreases |cuts|
  {
    if cuts == [] then l else CutJudges(CutJudge(l, req, marker, cuts[0]), req, marker, cuts[1..])
  }

  function FirstCut(cuts: seq<nat>): nat {
    if cuts == [] then 0 else if cuts[0] > 0 then cuts[0] else FirstCut(cuts[1..])
  }

  lemma FindDropped(passwd: seq<Line<Account>>, name: string)
    ensures FindAccount(Drop(passwd, AccountName, name), name) == None
  {
    DropMembers(passwd, AccountName, name);
  }

  /** Once a judge has made a write, no later judge makes another. */
  lemma {:induction false} CutJudgesOnce(l: Ledger, req: Request, marker: Option<int>, cuts: seq<nat>)
    ensures CutJudges(l, req, marker, cuts) == CutJudge(l, req, marker, FirstCut(cuts))
    ensures FirstCut(cuts) > 0 ==>
              CutJudge(CutJudge(l, req, marker, FirstCut(cuts)), req, marker, 3) == CutJudge(l, req, marker, FirstCut(cuts))
    decreases |cuts|
  {
    if cuts != [] {
      var next := CutJudge(l, req, marker, cuts[0]);
      CutJudgesOnce(next, req, marker, cuts[1..]);
      FindDropped(l.passwd, req.name);
    }
  }

  lemma DropShadow(shadow: seq<Line<Secret>>, name: string, hash: string)
    requires !Has(shadow, SecretName, name)
    ensures Drop(shadow, SecretName, name) == shadow && Drop(shadow + [Rec(Secret(name, hash))], SecretName, name) == shadow
  {
    DropNothing(shadow, SecretName, name);
    DropAdded(shadow, Secret(name, hash), SecretName);
  }

  /** What an unfinished attempt leaves when the first judge that rolls it back dies after `j` of the writes. */
  lemma CutRemains(l: Ledger, req: Request, uid: int, k: Progress, j: nat)
    requires CleanStart(l, req, uid) && !Complete(req, k)
    ensures var left := CutJudge(Written(l, req, uid, k), req, Some(uid), j);
            0 < j < 3 ==> left == Ledger(l.passwd,
                                         if k >= GROUPS then GroupsWritten(l.groups, req, uid) else l.groups,
                                         if j == 1 then Written(l, req, uid, k).shadow else l.shadow,
                                         l.sudoers)
    ensures j >= 3 ==> CutJudge(Written(l, req, uid, k), req, Some(uid), j) == Remains(l, req, k)
  {
    RefusalRestores(l, req, uid, k);
    if k >= PASSWD {
      FindAppended(l.passwd, Account(req.name, uid, uid));
      JudgeAcceptsTheFinished(l, req, uid, k);
      DropAdded(l.passwd, Account(req.name, uid, uid), AccountName);
      DropShadow(l.shadow, req.name, req.hash);
    } else {
      assert FindAccount(l.passwd, req.name) == None;
    }
  }

  /** The group lines of an attempt, written once more under the same number, are as they were. */
  lemma GroupsWrittenTwice(groups: seq<Line<Group>>, req: Request, uid: int)
    ensures var once := GroupsWritten(groups, req, uid); GroupsWritten(once, req, uid) == once
  {
    GroupsWrittenPresent(groups, req, uid);
    AddingAgainChangesNothing(WithPrimary(groups, req.group, uid), req.teams, req.name);
  }

  lemma NoConflictWithOwn(l: Ledger, req: Request, uid: int)
    requires CleanStart(l, req, uid)
    ensures !PrimaryConflict(GroupsWritten(l.groups, req, uid), req.group, uid)
  {
    LinesOfAnAttempt(l, req, uid, uid);
  }

  lemma ConflictAfterCut(l: Ledger, req: Request, uid: int, uid': int)
    requires CleanStart(l, req, uid) && CleanStart(l, req, uid')
    ensures PrimaryConflict(GroupsWritten(l.groups, req, uid), req.group, uid') <==> uid' != uid
  {
    if uid' == uid {
      NoConflictWithOwn(l, req, uid);
    } else {
      LinesOfAnAttempt(l, req, uid, uid');
      GroupsWrittenPresent(l.groups, req, uid);
      OnlyPersonalConflicts(req, uid, uid', GroupsWritten(l.groups, req, uid));
    }
  }

  /**
   * What the next attempt makes of the files left: it meets a conflict or not, and if not, it reaches the same
   * files as an undisturbed one or not.
   */
  ghost predicate NextAttempt(l: Ledger, left: Ledger, req: Request, uid': int, blocked: bool, same: bool) {
    && !Has(left.passwd, AccountName, req.name)
    && (PrimaryConflict(left.groups, req.group, uid') <==> blocked)
    && (!blocked ==> (SameFiles(Written(left, req, uid', SUDOERS), Written(l, req, uid', SUDOERS)) <==> same))
  }

  /**
   * Wherever an attempt is cut off, and wherever the judges of the controllers that take over are cut off in
   * turn: the judge either finds the account finished, or leaves the name free. The next attempt, under whatever
   * number, then meets a personal group conflict if and only if the group lines had been written, a judge died
   * between the first and the last write of its rollback, and the number is a new one. If it does not, it
   * reaches the same files as undisturbed, unless a judge died between the passwd and the shadow write and left
   * the shadow line standing.
   */
  lemma ResumeReachesTheSameFiles(l: Ledger, req: Request, uid: int, k: Progress, cuts: seq<nat>, uid': int)
    requires CleanStart(l, req, uid) && CleanStart(l, req, uid')
    ensures var j := FirstCut(cuts);
            var (finished, left) := Judged(CutJudges(Written(l, req, uid, k), req, Some(uid), cuts), req, Some(uid));
            && (finished <==> Complete(req, k))
            && (finished ==> SameFiles(left, Written(l, req, uid, SUDOERS)))
            && (!finished ==>
                  NextAttempt(l, left, req, uid', k >= GROUPS && 1 <= j <= 2 && uid' != uid, !(k >= SHADOW && j == 1)))
  {
    var w, j := Written(l, req, uid, k), FirstCut(cuts);
    CutJudgesOnce(w, req, Some(uid), cuts);
    JudgeAcceptsTheFinished(l, req, uid, k);
    if !Complete(req, k) {
      NothingToAccept(l, req, uid, k, j);
      CutRemains(l, req, uid, k, j);
      if 0 < j < 3 {
        ResumesAfterCut(l, req, uid, k, j, uid');
      } else {
        CutRemains(l, req, uid, k, 3);
        ResumesAfterWhole(l, req, uid, k, uid');
      }
    }
  }

  lemma ResumesAfterWhole(l: Ledger, req: Request, uid: int, k: Progress, uid': int)
    requires CleanStart(l, req, uid) && CleanStart(l, req, uid') && !Complete(req, k)
    ensures NextAttempt(l, Remains(l, req, k), req, uid', false, true)
  {
    RemainsDoNotConflict(l, req, k, uid');
    if k >= GROUPS { GroupsWrittenAgain(l, req, uid'); }
  }

  /** After a cut-off rollback there is no account left to accept. */
  lemma NothingToAccept(l: Ledger, req: Request, uid: int, k: Progress, j: nat)
    requires CleanStart(l, req, uid) && !Complete(req, k)
    ensures !Accepts(CutJudge(Written(l, req, uid, k), req, Some(uid), j), req, Some(uid))
  {
    JudgeAcceptsTheFinished(l, req, uid, k);
    FindDropped(Written(l, req, uid, k).passwd, req.name);
  }

  lemma ResumesAfterCut(l: Ledger, req: Request, uid: int, k: Progress, j: nat, uid': int)
    requires CleanStart(l, req, uid) && CleanStart(l, req, uid') && !Complete(req, k) && 0 < j < 3
    ensures var left := Ledger(l.passwd, if k >= GROUPS then GroupsWritten(l.groups, req, uid) else l.groups,
                               if j == 1 then Written(l, req, uid, k).shadow else l.shadow, l.sudoers);
            NextAttempt(l, left, req, uid', k >= GROUPS && uid' != uid, !(k >= SHADOW && j == 1))
  {
    if k >= GROUPS {
      ConflictAfterCut(l, req, uid, uid');
      GroupsWrittenTwice(l.groups, req, uid);
    } else {
      RemainsDoNotConflict(l, req, k, uid');
    }
    var secret := [Rec(Secret(req.name, req.hash))];
    assert l.shadow + secret + secret != l.shadow + secret by {
      assert |l.shadow + secret + secret| != |l.shadow + secret|;
    }
  }

  // ---------- adding a user to teams ----------

  lemma AddToTeamAddsOne(groups: seq<Line<Group>>, team: Team, name: string, gid: int, m: string)
    ensures InTeam(AddToTeam(groups, team, name), gid, m) <==> InTeam(groups, gid, m) || (m == name && gid == team.gid)
  {
  }

  /** Adding a user to teams gives him those memberships and changes nobody's else. */
  lemma {:induction false} AddToTeamsAddsExactly(groups: seq<Line<Group>>, teams: seq<Team>, name: string, gid: int, m: string)
    ensures InTeam(AddToTeams(groups, teams, name), gid, m)
            <==> InTeam(groups, gid, m) || (m == name && gid in TeamGids(teams))
    decreases |teams|
  {
    if teams != [] {
      AddToTeamAddsOne(groups, teams[0], name, gid, m);
      AddToTeamsAddsExactly(AddToTeam(groups, teams[0], name), teams[1..], name, gid, m);
      TeamGidsCons(teams);
    }
  }

  lemma NothingMissingAfter(groups: seq<Line<Group>>, teams: seq<Team>, name: string)
    ensures Missing(Gids(AddedAtOnce(groups, teams, name)), teams) == []
  {
    var joined, missing := Join(groups, TeamGids(teams), name), Missing(Gids(groups), teams);
    GidsAppend(joined, TeamLines(missing, [name]));
    JoinKeepsGids(groups, TeamGids(teams), name);
    TeamLinesGids(missing, [name]);
    MissingCovers(Gids(groups), teams);
    NothingMissing(Gids(AddedAtOnce(groups, teams, name)), teams);
  }

  lemma JoiningAgainChangesNothing(groups: seq<Line<Group>>, teams: seq<Team>, gids: set<int>, name: string)
    ensures Join(Join(groups, gids, name) + TeamLines(teams, [name]), gids, name)
            == Join(groups, gids, name) + TeamLines(teams, [name])
  {
  }

  /** Done twice it is done once: the step may be run again after any interruption. */
  lemma AddingAgainChangesNothing(groups: seq<Line<Group>>, teams: seq<Team>, name: string)
    ensures var once := AddToTeams(groups, teams, name); AddToTeams(once, teams, name) == once
  {
    AddToTeamsAtOnce(groups, teams, name);
    AddToTeamsAtOnce(AddedAtOnce(groups, teams, name), teams, name);
    NothingMissingAfter(groups, teams, name);
    JoiningAgainChangesNothing(groups, Missing(Gids(groups), teams), TeamGids(teams), name);
    assert TeamLines([], [name]) == [];
  }

  // ---------- when a part fails ----------

  /**
   * A part that cannot be written is answered by a rollback inside the step itself. It does not pass on the
   * number of the personal group, and it too is three writes, of which a dying process makes the first `j`.
   */
  function FailedAt(l: Ledger, req: Request, uid: int, part: Progress, j: nat): Ledger
    requires GROUPS <= part
  {
    RollBackUpTo(Written(l, req, uid, part - 1), req.name, None, j)
  }

  /** All lines are out of the way of another attempt, but for the empty personal group of the first. */
  ghost predicate AttemptLines(groups: seq<Line<Group>>, req: Request, uid: int, uid': int) {
    forall x :: x in groups && x.Rec? ==>
      x.rec == Group(req.group, uid, []) || (x.rec.gid != uid && x.rec.gid != uid' && x.rec.name != req.group)
  }

  /** Of the lines a creation writes or leaves, only the personal group's can conflict with another attempt. */
  lemma OnlyPersonalConflicts(req: Request, uid: int, uid': int, groups: seq<Line<Group>>)
    requires uid != uid' && AttemptLines(groups, req, uid, uid')
    ensures PrimaryConflict(groups, req.group, uid') <==> PrimaryPresent(groups, req.group, uid)
  {
  }

  lemma LinesOfAnAttempt(l: Ledger, req: Request, uid: int, uid': int)
    requires CleanStart(l, req, uid) && CleanStart(l, req, uid')
    ensures AttemptLines(GroupsWritten(l.groups, req, uid), req, uid, uid')
  {
    GroupsWrittenClean(l.groups, req, uid);
    var joined := Join(l.groups, TeamGids(req.teams), req.name);
    var teams := TeamLines(NewTeams(l, req), [req.name]);
    forall x | x in joined && x.Rec? ensures x.rec.gid != uid && x.rec.gid != uid' && x.rec.name != req.group {
      var k :| 0 <= k < |joined| && joined[k] == x;
      assert l.groups[k] in l.groups;
    }
    forall x | x in teams ensures x.rec.gid != uid && x.rec.gid != uid' && x.rec.name != req.group {
      var k :| 0 <= k < |teams| && teams[k] == x;
      assert NewTeams(l, req)[k] in req.teams;
    }
  }

  /** A rollback that does not know the number takes the personal line out if it bears the account's name. */
  lemma RollBackKeepsLines(groups: seq<Line<Group>>, req: Request, uid: int, uid': int)
    requires AttemptLines(groups, req, uid, uid')
    ensures var after := TakeOut(true, groups, req.name, None);
            && AttemptLines(after, req, uid, uid')
            && (PrimaryPresent(after, req.group, uid) <==> PrimaryPresent(groups, req.group, uid) && req.group != req.name)
  {
    var after := TakeOut(true, groups, req.name, None);
    TakeOutMembers(true, groups, req.name, None);
    forall x | x in after && x.Rec?
      ensures exists y :: y in groups && y.Rec? && y.rec.gid == x.rec.gid && y.rec.name == x.rec.name
                          && (y.rec.members == [] ==> x.rec.members == [] && x.rec.name != req.name)
    {
      var k :| 0 <= k < |groups| && TakeOutLine(true, groups[k], req.name, None) == [x];
      assert groups[k] in groups;
    }
    var personal: Line<Group> := Rec(Group(req.group, uid, []));
    if personal in groups && req.group != req.name {
      var k :| 0 <= k < |groups| && groups[k] == personal;
      assert TakeOutLine(true, groups[k], req.name, None) == [personal];
    }
  }

  /** The group lines after `n` attempts have stopped at the conflict and have been rolled back. */
  function AfterConflicts(groups: seq<Line<Group>>, name: string, n: nat): seq<Line<Group>>
    decreases n
  {
    if n == 0 then groups else AfterConflicts(TakeOut(true, groups, name, None), name, n - 1)
  }

  /** Each of these rollbacks can clear the way, but only for a personal group named like the account. */
  lemma {:induction false} ConflictsGoOn(groups: seq<Line<Group>>, req: Request, uid: int, uid': int, n: nat)
    requires uid != uid' && AttemptLines(groups, req, uid, uid')
    ensures PrimaryConflict(AfterConflicts(groups, req.name, n), req.group, uid')
            <==> PrimaryPresent(groups, req.group, uid) && (n == 0 || req.group != req.name)
    decreases n
  {
    if n == 0 {
      OnlyPersonalConflicts(req, uid, uid', groups);
    } else {
      RollBackKeepsLines(groups, req, uid, uid');
      ConflictsGoOn(TakeOut(true, groups, req.name, None), req, uid, uid', n - 1);
    }
  }

  /** The groups found by the next attempt, after a failure at `part` whose rollback came `j` writes far. */
  lemma GroupsAfterFailure(l: Ledger, req: Request, uid: int, part: Progress, j: nat)
    requires CleanStart(l, req, uid) && GROUPS <= part && j <= 3 && !Complete(req, part - 1)
    ensures var left := Judged(FailedAt(l, req, uid, part, j), req, Some(uid)).1;
            left.groups == if part == GROUPS then l.groups
                           else if j == 0 then l.groups + TeamLines(NewTeams(l, req), [])
                           else if j < 3 then GroupsWritten(l.groups, req, uid)
                           else TakeOut(true, GroupsWritten(l.groups, req, uid), req.name, None)
  {
    RollBackUntouchedGroups(l, req, uid, None);
    RollBackUntouchedGroups(l, req, uid, Some(uid));
    var before := Written(l, req, uid, part - 1);
    if j == 0 {
      assert FailedAt(l, req, uid, part, j) == before;
      RefusalRestores(l, req, uid, part - 1);
    } else {
      DropAdded(l.passwd, Account(req.name, uid, uid), AccountName);
      assert FailedAt(l, req, uid, part, j).passwd == l.passwd;
    }
  }

  /**
   * A failure after the groups were written stops the next attempt under another number at the personal group
   * exactly when the rollback died between its first write and its last, or ran to its end for a personal group
   * that does not bear the account's name. Its own rollback then clears the way for the attempts after it, but
   * only if the group bears that name; otherwise every one of them stops there as well.
   */
  lemma StuckExactlyWhen(l: Ledger, req: Request, uid: int, part: Progress, j: nat, uid': int, n: nat)
    requires CleanStart(l, req, uid) && CleanStart(l, req, uid') && uid != uid'
    requires GROUPS <= part && j <= 3 && !Complete(req, part - 1)
    ensures var groups := Judged(FailedAt(l, req, uid, part, j), req, Some(uid)).1.groups;
            PrimaryConflict(AfterConflicts(groups, req.name, n), req.group, uid')
            <==> part > GROUPS && 1 <= j && (req.group != req.name || (j <= 2 && n == 0))
  {
    var groups := Judged(FailedAt(l, req, uid, part, j), req, Some(uid)).1.groups;
    GroupsAfterFailure(l, req, uid, part, j);
    LinesOfAnAttempt(l, req, uid, uid');
    GroupsWrittenPresent(l.groups, req, uid);
    if part > GROUPS && j > 0 {
      RollBackKeepsLines(GroupsWritten(l.groups, req, uid), req, uid, uid');
    } else {
      CleanLines(l, req, uid, uid');
    }
    ConflictsGoOn(groups, req, uid, uid', n);
  }

  /** Before an attempt, and after one that was taken back whole, no line is in the way. */
  lemma CleanLines(l: Ledger, req: Request, uid: int, uid': int)
    requires CleanStart(l, req, uid) && CleanStart(l, req, uid')
    ensures AttemptLines(l.groups, req, uid, uid') && !PrimaryPresent(l.groups, req.group, uid)
    ensures var left := l.groups + TeamLines(NewTeams(l, req), []);
            AttemptLines(left, req, uid, uid') && !PrimaryPresent(left, req.group, uid)
  {
  }

  /** The same after a judge has died between the first and the last write of its rollback. */
  lemma CutJudgeBlocksUntil(l: Ledger, req: Request, uid: int, k: Progress, j: nat, uid': int, n: nat)
    requires CleanStart(l, req, uid) && CleanStart(l, req, uid') && uid != uid' && !Complete(req, k)
    ensures var groups := CutJudge(Written(l, req, uid, k), req, Some(uid), j).groups;
            j > 0 ==> (PrimaryConflict(AfterConflicts(groups, req.name, n), req.group, uid')
                       <==> k >= GROUPS && j <= 2 && (n == 0 || req.group != req.name))
  {
    if j > 0 {
      var groups := CutJudge(Written(l, req, uid, k), req, Some(uid), j).groups;
      CutRemains(l, req, uid, k, j);
      CleanLines(l, req, uid, uid');
      LinesOfAnAttempt(l, req, uid, uid');
      GroupsWrittenPresent(l.groups, req, uid);
      ConflictsGoOn(groups, req, uid, uid', n);
    }
  }

  /**
   * The home and Kerberos steps roll a finished account back in the same way and send the job back to the
   * account step, which under a new number then stops at the conflict, however often it is tried, exactly when
   * the personal group does not bear the account's name.
   */
  lemma LaterRollbackBlocksExactlyWhen(l: Ledger, req: Request, uid: int, uid': int, n: nat)
    requires CleanStart(l, req, uid) && CleanStart(l, req, uid') && uid != uid'
    ensures var groups := RollBack(Written(l, req, uid, SUDOERS), req.name, None).groups;
            PrimaryConflict(AfterConflicts(groups, req.name, n), req.group, uid') <==> req.group != req.name
  {
    LinesOfAnAttempt(l, req, uid, uid');
    GroupsWrittenPresent(l.groups, req, uid);
    RollBackKeepsLines(GroupsWritten(l.groups, req, uid), req, uid, uid');
    ConflictsGoOn(TakeOut(true, GroupsWritten(l.groups, req, uid), req.name, None), req, uid, uid', n);
  }
}
