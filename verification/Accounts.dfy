/**
 * The account files: what creating an account writes and in which order, what rolling it back removes, and how a
 * controller that takes over an interrupted creation tells whether it had finished.
 */
module Accounts {
  import opened Prelude

  /** A line that parses, or any other line, which every rewrite keeps as it is. */
  datatype Line<T> = Rec(rec: T) | Other(text: string)

  datatype Account = Account(name: string, uid: int, gid: int)

  datatype Group = Group(name: string, gid: int, members: seq<string>)

  datatype Secret = Secret(name: string, hash: string)

  datatype Ledger = Ledger(
    passwd: seq<Line<Account>>,
    groups: seq<Line<Group>>,
    shadow: seq<Line<Secret>>,
    sudoers: set<string>)

  datatype Team = Team(name: string, gid: int)

  /** `group` is the name of the personal group; `sudo` says whether a sudoers policy is configured at all. */
  datatype Request = Request(name: string, group: string, teams: seq<Team>, sudo: bool, hash: string)

  function AccountName(a: Account): string { a.name }

  function SecretName(s: Secret): string { s.name }

  // ---------- lines ----------

  predicate Has<T(==)>(lines: seq<Line<T>>, key: T -> string, name: string) {
    exists l :: l in lines && l.Rec? && key(l.rec) == name
  }

  function Drop<T>(lines: seq<Line<T>>, key: T -> string, name: string): seq<Line<T>> {
    if lines == [] then []
    else (if lines[0].Rec? && key(lines[0].rec) == name then [] else [lines[0]]) + Drop(lines[1..], key, name)
  }

  lemma {:induction false} DropAppend<T>(lines: seq<Line<T>>, more: seq<Line<T>>, key: T -> string, name: string)
    ensures Drop(lines + more, key, name) == Drop(lines, key, name) + Drop(more, key, name)
  {
    if lines == [] {
      assert lines + more == more;
    } else {
      assert (lines + more)[0] == lines[0] && (lines + more)[1..] == lines[1..] + more;
      DropAppend(lines[1..], more, key, name);
    }
  }

  lemma {:induction false} DropNothing<T>(lines: seq<Line<T>>, key: T -> string, name: string)
    requires !Has(lines, key, name)
    ensures Drop(lines, key, name) == lines
  {
    if lines != [] {
      assert lines[0] in lines && forall l :: l in lines[1..] ==> l in lines;
      DropNothing(lines[1..], key, name);
    }
  }

  lemma {:induction false} DropMembers<T>(lines: seq<Line<T>>, key: T -> string, name: string)
    ensures forall l :: l in Drop(lines, key, name) <==> l in lines && !(l.Rec? && key(l.rec) == name)
  {
    if lines != [] {
      DropMembers(lines[1..], key, name);
    }
  }

  /** A line with the name added and dropped again leaves the file as it was. */
  lemma DropAdded<T>(lines: seq<Line<T>>, added: T, key: T -> string)
    requires !Has(lines, key, key(added))
    ensures Drop(lines + [Rec(added)], key, key(added)) == lines
  {
    DropAppend(lines, [Rec(added)], key, key(added));
    DropNothing(lines, key, key(added));
  }

  function FindAccount(passwd: seq<Line<Account>>, name: string): (r: Option<Account>)
    ensures r.Some? <==> Has(passwd, AccountName, name)
    ensures r.Some? ==> Rec(r.value) in passwd && r.value.name == name
  {
    if passwd == [] then None
    else if passwd[0].Rec? && passwd[0].rec.name == name then
      assert Has(passwd, AccountName, name) by { assert passwd[0] in passwd && AccountName(passwd[0].rec) == name; }
      Some(passwd[0].rec)
    else
      assert forall l :: l in passwd <==> l == passwd[0] || l in passwd[1..];
      FindAccount(passwd[1..], name)
  }

  // ---------- group lines ----------

  function Gids(groups: seq<Line<Group>>): set<int> {
    set l | l in groups && l.Rec? :: l.rec.gid
  }

  function WithMember(members: seq<string>, name: string): seq<string> {
    if name in members then members else members + [name]
  }

  function WithoutMember(members: seq<string>, name: string): (r: seq<string>)
    ensures forall m :: m in r <==> m in members && m != name
    ensures multiset(r) == multiset(members)[name := 0]
  {
    if members == [] then []
    else
      var rest := WithoutMember(members[1..], name);
      assert members == [members[0]] + members[1..];
      if members[0] == name then rest else [members[0]] + rest
  }

  lemma {:induction false} LeaveAfterJoin(members: seq<string>, name: string)
    requires name !in members
    ensures WithoutMember(members, name) == members
    ensures WithoutMember(members + [name], name) == members
  {
    if members == [] {
      assert ([name])[1..] == [];
    } else {
      assert (members + [name])[1..] == members[1..] + [name];
      LeaveAfterJoin(members[1..], name);
    }
  }

  function JoinLine(line: Line<Group>, gids: set<int>, name: string): Line<Group> {
    if line.Rec? && line.rec.gid in gids then Rec(line.rec.(members := WithMember(line.rec.members, name))) else line
  }

  /** Every line whose gid is listed gets the member. */
  function Join(groups: seq<Line<Group>>, gids: set<int>, name: string): (r: seq<Line<Group>>)
    ensures |r| == |groups| && forall k :: 0 <= k < |r| ==> r[k] == JoinLine(groups[k], gids, name)
  {
    seq(|groups|, k requires 0 <= k < |groups| => JoinLine(groups[k], gids, name))
  }

  function AddToTeam(groups: seq<Line<Group>>, team: Team, name: string): seq<Line<Group>> {
    if team.gid in Gids(groups) then Join(groups, {team.gid}, name)
    else groups + [Rec(Group(team.name, team.gid, [name]))]
  }

  function AddToTeams(groups: seq<Line<Group>>, teams: seq<Team>, name: string): seq<Line<Group>>
    decreases |teams|
  {
    if teams == [] then groups else AddToTeams(AddToTeam(groups, teams[0], name), teams[1..], name)
  }

  /** A line that agrees with the personal group in its name or its number but not in both. */
  predicate PrimaryConflict(groups: seq<Line<Group>>, group: string, gid: int) {
    exists l :: l in groups && l.Rec? && (l.rec.gid == gid) != (l.rec.name == group)
  }

  predicate PrimaryPresent(groups: seq<Line<Group>>, group: string, gid: int) {
    exists l :: l in groups && l.Rec? && l.rec.gid == gid && l.rec.name == group
  }

  function WithPrimary(groups: seq<Line<Group>>, group: string, gid: int): seq<Line<Group>> {
    if PrimaryPresent(groups, group, gid) then groups else groups + [Rec(Group(group, gid, []))]
  }

  /** What the group part of a creation writes, unless the personal group conflicts. */
  function GroupsWritten(groups: seq<Line<Group>>, req: Request, uid: int): seq<Line<Group>> {
    AddToTeams(WithPrimary(groups, req.group, uid), req.teams, req.name)
  }

  predicate InTeam(groups: seq<Line<Group>>, gid: int, name: string) {
    exists l :: l in groups && l.Rec? && l.rec.gid == gid && name in l.rec.members
  }

  // ---------- rolling back ----------

  /**
   * A line with a user taken out of it: his membership goes, and with it the line itself if it is his personal
   * group, known by its name or by its number, and nobody is left in it.
   */
  function TakeOutLine(byName: bool, line: Line<Group>, name: string, gid: Option<int>): seq<Line<Group>> {
    match line
    case Other(_) => [line]
    case Rec(g) =>
      var members := WithoutMember(g.members, name);
      if ((byName && g.name == name) || gid == Some(g.gid)) && members == [] then [] else [Rec(g.(members := members))]
  }

  function TakeOut(byName: bool, groups: seq<Line<Group>>, name: string, gid: Option<int>): seq<Line<Group>> {
    if groups == [] then []
    else TakeOutLine(byName, groups[0], name, gid) + TakeOut(byName, groups[1..], name, gid)
  }

  function RollBack(l: Ledger, name: string, primaryGid: Option<int>): Ledger {
    l.(passwd := Drop(l.passwd, AccountName, name),
       shadow := Drop(l.shadow, SecretName, name),
       groups := TakeOut(true, l.groups, name, primaryGid))
  }

  /** A rollback is three writes, in this order, of which a dying process makes the first `j`. */
  function RollBackUpTo(l: Ledger, name: string, primaryGid: Option<int>, j: nat): Ledger {
    var whole := RollBack(l, name, primaryGid);
    l.(passwd := if j >= 1 then whole.passwd else l.passwd,
       shadow := if j >= 2 then whole.shadow else l.shadow,
       groups := if j >= 3 then whole.groups else l.groups)
  }

  lemma {:induction false} TakeOutAppend(byName: bool, a: seq<Line<Group>>, b: seq<Line<Group>>, name: string, gid: Option<int>)
    ensures TakeOut(byName, a + b, name, gid)
            == TakeOut(byName, a, name, gid) + TakeOut(byName, b, name, gid)
  {
    if a == [] {
      assert a + b == b;
    } else {
      assert (a + b)[0] == a[0] && (a + b)[1..] == a[1..] + b;
      TakeOutAppend(byName, a[1..], b, name, gid);
    }
  }

  // ---------- which lines stand ----------

  /** The line as it was, or with its name and its number and everybody in it but the user. */
  predicate Thinned(before: Line<Group>, after: Line<Group>, user: string) {
    match before
    case Other(_) => after == before
    case Rec(g) =>
      && after.Rec? && after.rec.name == g.name && after.rec.gid == g.gid
      && multiset(after.rec.members) == multiset(g.members)[user := 0]
  }

  /** The line is the user's personal group, known by number or, where it is looked for, by name, and his alone. */
  predicate HisAlone(line: Line<Group>, user: string, byName: bool, own: Option<int>) {
    && line.Rec? && ((byName && line.rec.name == user) || own == Some(line.rec.gid))
    && forall m :: m in line.rec.members ==> m == user
  }

  /** `kept` are the places of the lines that stand: all but the user's own, in their order, the user taken out. */
  ghost predicate StandAt(before: seq<Line<Group>>, after: seq<Line<Group>>, user: string, byName: bool, own: Option<int>,
                          kept: seq<nat>) {
    && |kept| == |after|
    && (forall i, j :: 0 <= i < j < |kept| ==> kept[i] < kept[j])
    && (forall i :: 0 <= i < |kept| ==> kept[i] < |before| && Thinned(before[kept[i]], after[i], user))
    && (forall k: nat :: k < |before| ==> (k in kept <==> !HisAlone(before[k], user, byName, own)))
  }

  /**
   * Every line that is not the user's alone is still there, in its place among the others, with its name, its
   * number and its other members; one that this leaves empty is still there as well.
   */
  ghost predicate LinesStand(before: seq<Line<Group>>, after: seq<Line<Group>>, user: string, byName: bool, own: Option<int>) {
    exists kept :: StandAt(before, after, user, byName, own, kept)
  }

  lemma OneLineStands(line: Line<Group>, user: string, byName: bool, own: Option<int>)
    ensures TakeOutLine(byName, line, user, own) == [] <==> HisAlone(line, user, byName, own)
    ensures |TakeOutLine(byName, line, user, own)| <= 1
    ensures |TakeOutLine(byName, line, user, own)| == 1 ==> Thinned(line, TakeOutLine(byName, line, user, own)[0], user)
  {
    if line.Rec? {
      var rest := WithoutMember(line.rec.members, user);
      if rest != [] { assert rest[0] in rest; }
    }
  }

  lemma StandsSkip(before: seq<Line<Group>>, line: Line<Group>, after: seq<Line<Group>>, user: string, byName: bool,
                   own: Option<int>, kept: seq<nat>)
    requires StandAt(before, after, user, byName, own, kept) && HisAlone(line, user, byName, own)
    ensures StandAt(before + [line], after, user, byName, own, kept)
  {
    var all := before + [line];
    forall k: nat | k < |all| ensures k in kept <==> !HisAlone(all[k], user, byName, own) {
      if k == |before| {
        forall i | 0 <= i < |kept| ensures kept[i] != k { assert kept[i] < |before|; }
      }
    }
  }

  lemma StandsKeep(before: seq<Line<Group>>, line: Line<Group>, after: seq<Line<Group>>, thin: Line<Group>, user: string,
                   byName: bool, own: Option<int>, kept: seq<nat>)
    requires StandAt(before, after, user, byName, own, kept)
    requires !HisAlone(line, user, byName, own) && Thinned(line, thin, user)
    ensures StandAt(before + [line], after + [thin], user, byName, own, kept + [|before|])
  {
    var all, more := before + [line], kept + [|before|];
    forall k: nat | k < |all| ensures k in more <==> !HisAlone(all[k], user, byName, own) {
      assert k in more <==> k in kept || k == |before|;
    }
    forall i | 0 <= i < |more| ensures more[i] < |all| && Thinned(all[more[i]], (after + [thin])[i], user) {
      if i < |kept| { assert Thinned(before[kept[i]], after[i], user); }
    }
  }

  lemma {:induction false} TakeOutStands(groups: seq<Line<Group>>, user: string, byName: bool, own: Option<int>)
    returns (kept: seq<nat>)
    ensures StandAt(groups, TakeOut(byName, groups, user, own), user, byName, own, kept)
  {
    if groups == [] {
      kept := [];
    } else {
      var n := |groups| - 1;
      var front, line := groups[..n], groups[n];
      var before := TakeOutStands(front, user, byName, own);
      assert groups == front + [line];
      TakeOutLast(front, line, user, byName, own);
      OneLineStands(line, user, byName, own);
      var thin := TakeOutLine(byName, line, user, own);
      if thin == [] {
        kept := before;
        StandsSkip(front, line, TakeOut(byName, front, user, own), user, byName, own, before);
      } else {
        kept := before + [n];
        assert thin == [thin[0]];
        StandsKeep(front, line, TakeOut(byName, front, user, own), thin[0], user, byName, own, before);
      }
    }
  }

  lemma TakeOutLast(front: seq<Line<Group>>, line: Line<Group>, user: string, byName: bool, own: Option<int>)
    ensures TakeOut(byName, front + [line], user, own)
            == TakeOut(byName, front, user, own) + TakeOutLine(byName, line, user, own)
  {
    TakeOutAppend(byName, front, [line], user, own);
    assert [line][1..] == [];
  }

  /** Taking a user out of the group lines leaves every line standing that is not his alone. */
  lemma TakeOutLeavesLines(groups: seq<Line<Group>>, user: string, byName: bool, own: Option<int>)
    ensures LinesStand(groups, TakeOut(byName, groups, user, own), user, byName, own)
  {
    var kept := TakeOutStands(groups, user, byName, own);
  }

  lemma {:induction false} TakeOutMembers(byName: bool, groups: seq<Line<Group>>, name: string, gid: Option<int>)
    ensures forall l :: l in TakeOut(byName, groups, name, gid) <==>
              exists k :: 0 <= k < |groups| && TakeOutLine(byName, groups[k], name, gid) == [l]
  {
    if groups != [] {
      TakeOutMembers(byName, groups[1..], name, gid);
      forall l
        ensures l in TakeOut(byName, groups, name, gid) <==>
                  exists k :: 0 <= k < |groups| && TakeOutLine(byName, groups[k], name, gid) == [l]
      {
        if k :| 0 <= k < |groups| && TakeOutLine(byName, groups[k], name, gid) == [l] {
          assert k > 0 ==> groups[1..][k - 1] == groups[k];
        }
        if k :| 0 <= k < |groups[1..]| && TakeOutLine(byName, groups[1..][k], name, gid) == [l] {
          assert groups[k + 1] == groups[1..][k];
        }
        assert |TakeOutLine(byName, groups[0], name, gid)| <= 1;
      }
    }
  }

  /**
   * Rolling back leaves no line, password or membership of the name, and no empty personal group of it; every
   * other account keeps its lines, every other member his memberships.
   */
  lemma RollBackTouchesOnlyTheName(l: Ledger, name: string, primaryGid: Option<int>)
    ensures var r := RollBack(l, name, primaryGid);
            && !Has(r.passwd, AccountName, name) && !Has(r.shadow, SecretName, name)
            && (forall x :: x in r.passwd <==> x in l.passwd && !(x.Rec? && x.rec.name == name))
            && (forall x :: x in r.shadow <==> x in l.shadow && !(x.Rec? && x.rec.name == name))
            && (forall x :: x in r.groups && x.Rec? ==> name !in x.rec.members)
            && (forall x :: x in r.groups && x.Rec? && (x.rec.name == name || Some(x.rec.gid) == primaryGid) ==>
                  x.rec.members != [])
            && (forall gid, m :: m != name ==> (InTeam(r.groups, gid, m) <==> InTeam(l.groups, gid, m)))
            && r.sudoers == l.sudoers
  {
    DropMembers(l.passwd, AccountName, name);
    DropMembers(l.shadow, SecretName, name);
    forall x ensures x in Drop(l.passwd, AccountName, name) <==> x in l.passwd && !(x.Rec? && x.rec.name == name) {
      assert x.Rec? ==> AccountName(x.rec) == x.rec.name;
    }
    forall x ensures x in Drop(l.shadow, SecretName, name) <==> x in l.shadow && !(x.Rec? && x.rec.name == name) {
      assert x.Rec? ==> SecretName(x.rec) == x.rec.name;
    }
    TakeOutMembers(true, l.groups, name, primaryGid);
    forall gid, m | m != name
      ensures InTeam(RollBack(l, name, primaryGid).groups, gid, m) <==> InTeam(l.groups, gid, m)
    {
      TakeOutKeepsTeams(true, l.groups, name, primaryGid, gid, m);
    }
  }

  lemma TakeOutKeepsTeams(byName: bool, groups: seq<Line<Group>>, name: string, own: Option<int>, gid: int, m: string)
    requires m != name
    ensures InTeam(TakeOut(byName, groups, name, own), gid, m) <==> InTeam(groups, gid, m)
  {
  }

  /** ... and every group line that is not his own alone stands, whoever is left in it. */
  lemma RollBackLeavesLines(l: Ledger, name: string, primaryGid: Option<int>)
    ensures LinesStand(l.groups, RollBack(l, name, primaryGid).groups, name, true, primaryGid)
  {
    TakeOutLeavesLines(l.groups, name, true, primaryGid);
  }
}
