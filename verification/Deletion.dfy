/**
 * Deleting an account, and believing that one is gone. An account that is not in the files counts as deleted only
 * on the evidence of a journal row that says who deleted it; rows that themselves rest on evidence do not count.
 */
module Deletion {
  import opened Prelude
  import opened Accounts

  // ---------- the files ----------

  /** The `i`-th line is the account, and no later line bears the name. */
  ghost predicate LastOf(passwd: seq<Line<Account>>, user: string, account: Account, i: nat) {
    && i < |passwd| && passwd[i] == Rec(account) && account.name == user
    && forall k :: i < k < |passwd| ==> !(passwd[k].Rec? && passwd[k].rec.name == user)
  }

  lemma LastOfTail(passwd: seq<Line<Account>>, user: string, account: Account, i: nat)
    requires passwd != [] && LastOf(passwd[1..], user, account, i)
    ensures LastOf(passwd, user, account, i + 1)
  {
    forall k | i + 1 < k < |passwd| ensures !(passwd[k].Rec? && passwd[k].rec.name == user) {
      assert passwd[k] == passwd[1..][k - 1];
    }
  }

  /** The account's own line: the last of that name. */
  function LastAccount(passwd: seq<Line<Account>>, user: string): (r: Option<Account>)
    ensures r.Some? <==> Has(passwd, AccountName, user)
    ensures r.Some? ==> Rec(r.value) in passwd && r.value.name == user
    ensures r.Some? ==> exists i: nat :: LastOf(passwd, user, r.value, i)
  {
    if passwd == [] then None
    else
      var rest := LastAccount(passwd[1..], user);
      assert rest.Some? ==> exists i: nat :: LastOf(passwd, user, rest.value, i) by {
        if rest.Some? {
          var i: nat :| LastOf(passwd[1..], user, rest.value, i);
          LastOfTail(passwd, user, rest.value, i);
        }
      }
      assert rest.None? && passwd[0].Rec? && passwd[0].rec.name == user ==> LastOf(passwd, user, passwd[0].rec, 0) by {
        if rest.None? {
          forall k | 0 < k < |passwd| ensures !(passwd[k].Rec? && passwd[k].rec.name == user) {
            assert passwd[k] in passwd[1..];
            assert passwd[k].Rec? ==> AccountName(passwd[k].rec) == passwd[k].rec.name;
          }
        }
      }
      assert forall l :: l in passwd <==> l == passwd[0] || l in passwd[1..];
      assert passwd[0].Rec? ==> AccountName(passwd[0].rec) == passwd[0].rec.name;
      if rest.Some? then rest
      else if passwd[0].Rec? && passwd[0].rec.name == user then Some(passwd[0].rec)
      else None
  }

  /** The files after the first `k` of the three writes of a deletion. */
  function Deleted(l: Ledger, user: string, gid: int, k: nat): Ledger {
    l.(passwd := if k >= 1 then Drop(l.passwd, AccountName, user) else l.passwd,
       shadow := if k >= 2 then Drop(l.shadow, SecretName, user) else l.shadow,
       groups := if k >= 3 then TakeOut(false, l.groups, user, Some(gid)) else l.groups)
  }

  /** The files after the first `k` of the two writes that clear what a half deletion left. */
  function Cleared(l: Ledger, user: string, k: nat): Ledger {
    l.(shadow := if k >= 1 then Drop(l.shadow, SecretName, user) else l.shadow,
       groups := if k >= 2 then TakeOut(true, l.groups, user, None) else l.groups)
  }

  predicate ShadowLeft(l: Ledger, user: string) {
    Drop(l.shadow, SecretName, user) != l.shadow
  }

  predicate GroupsLeft(l: Ledger, user: string) {
    TakeOut(true, l.groups, user, None) != l.groups
  }

  /** How many files that clearing has to write: one in which nothing of the user is left is not written. */
  function Leftovers(l: Ledger, user: string): nat {
    (if ShadowLeft(l, user) then 1 else 0) + (if GroupsLeft(l, user) then 1 else 0)
  }

  /** The group file holds a membership of the user, or an empty group of that name. */
  ghost predicate InGroupFile(groups: seq<Line<Group>>, user: string) {
    exists x :: x in groups && x.Rec? && (user in x.rec.members || (x.rec.name == user && x.rec.members == []))
  }

  /** How many of the two files hold something of a user who is no longer in passwd. */
  ghost function FilesLeft(l: Ledger, user: string): nat {
    (if Has(l.shadow, SecretName, user) then 1 else 0) + (if InGroupFile(l.groups, user) then 1 else 0)
  }

  lemma LeftoversAreThere(l: Ledger, user: string)
    ensures ShadowLeft(l, user) <==> Has(l.shadow, SecretName, user)
    ensures GroupsLeft(l, user) <==> InGroupFile(l.groups, user)
    ensures Leftovers(l, user) == FilesLeft(l, user)
  {
    DropMembers(l.shadow, SecretName, user);
    if !Has(l.shadow, SecretName, user) { DropNothing(l.shadow, SecretName, user); }
    TakeOutFindsHim(l.groups, user);
  }

  lemma {:induction false} TakeOutFindsHim(groups: seq<Line<Group>>, user: string)
    ensures |TakeOut(true, groups, user, None)| <= |groups|
    ensures TakeOut(true, groups, user, None) != groups <==> InGroupFile(groups, user)
  {
    if groups != [] {
      TakeOutFindsHim(groups[1..], user);
      HimInLine(groups[0], user);
      var line, rest := TakeOutLine(true, groups[0], user, None), TakeOut(true, groups[1..], user, None);
      assert groups == [groups[0]] + groups[1..] && |line| <= 1;
      if line != [] && line != [groups[0]] {
        assert (line + rest)[0] != groups[0];
      }
      if line == [groups[0]] && rest != groups[1..] {
        assert (line + rest)[1..] == rest;
      }
      assert InGroupFile(groups, user) <==> InGroupFile([groups[0]], user) || InGroupFile(groups[1..], user) by {
        assert forall x :: x in groups <==> x in [groups[0]] || x in groups[1..];
      }
    }
  }

  lemma HimInLine(line: Line<Group>, user: string)
    ensures |TakeOutLine(true, line, user, None)| <= 1
    ensures TakeOutLine(true, line, user, None) != [line] <==> InGroupFile([line], user)
  {
    assert line in [line];
    if line.Rec? && user !in line.rec.members { LeaveAfterJoin(line.rec.members, user); }
  }

  /** Of a user who was no longer in passwd nothing is left, and every other line stands. */
  ghost predicate ClearedAlone(before: Ledger, after: Ledger, user: string) {
    && !Has(after.shadow, SecretName, user) && !InGroupFile(after.groups, user)
    && after.passwd == before.passwd && after.sudoers == before.sudoers
    && (forall x :: x in after.shadow <==> x in before.shadow && !(x.Rec? && x.rec.name == user))
    && LinesStand(before.groups, after.groups, user, true, None)
  }

  /** Broken off before its second write: the passwords may be cleared, the groups are as they were. */
  ghost predicate BrokenOff(before: Ledger, after: Ledger, user: string, k: nat) {
    && after.passwd == before.passwd && after.groups == before.groups && after.sudoers == before.sudoers
    && (k == 0 ==> after.shadow == before.shadow)
    && (k > 0 ==> !Has(after.shadow, SecretName, user)
                  && forall x :: x in after.shadow <==> x in before.shadow && !(x.Rec? && x.rec.name == user))
  }

  lemma ClearingClears(l: Ledger, user: string)
    ensures ClearedAlone(l, Cleared(l, user, 2), user)
    ensures BrokenOff(l, l, user, 0) && BrokenOff(l, Cleared(l, user, 1), user, 1)
  {
    DropLeavesOthers(l, user);
    TakeOutLeavesLines(l.groups, user, true, None);
    TakeOutLeavesNone(l.groups, user);
  }

  lemma {:induction false} TakeOutLeavesNone(groups: seq<Line<Group>>, user: string)
    ensures !InGroupFile(TakeOut(true, groups, user, None), user)
  {
    if groups != [] {
      TakeOutLeavesNone(groups[1..], user);
      var line, rest := TakeOutLine(true, groups[0], user, None), TakeOut(true, groups[1..], user, None);
      assert !InGroupFile(line, user);
      assert forall x :: x in line + rest ==> x in line || x in rest;
    }
  }

  /** Nothing of the user is left, and nothing of anybody else has changed. */
  ghost predicate GoneAlone(before: Ledger, after: Ledger, user: string) {
    && !Has(after.passwd, AccountName, user) && !Has(after.shadow, SecretName, user)
    && (forall x :: x in after.groups && x.Rec? ==> user !in x.rec.members)
    && (forall x :: x in after.passwd <==> x in before.passwd && !(x.Rec? && x.rec.name == user))
    && (forall x :: x in after.shadow <==> x in before.shadow && !(x.Rec? && x.rec.name == user))
    && (forall gid, m :: m != user ==> (InTeam(after.groups, gid, m) <==> InTeam(before.groups, gid, m)))
    && after.sudoers == before.sudoers
  }

  lemma DropLeavesOthers(l: Ledger, user: string)
    ensures !Has(Drop(l.passwd, AccountName, user), AccountName, user)
    ensures !Has(Drop(l.shadow, SecretName, user), SecretName, user)
    ensures forall x :: x in Drop(l.passwd, AccountName, user) <==> x in l.passwd && !(x.Rec? && x.rec.name == user)
    ensures forall x :: x in Drop(l.shadow, SecretName, user) <==> x in l.shadow && !(x.Rec? && x.rec.name == user)
  {
    DropMembers(l.passwd, AccountName, user);
    DropMembers(l.shadow, SecretName, user);
    forall x ensures x in Drop(l.passwd, AccountName, user) <==> x in l.passwd && !(x.Rec? && x.rec.name == user) {
      assert x.Rec? ==> AccountName(x.rec) == x.rec.name;
    }
    forall x ensures x in Drop(l.shadow, SecretName, user) <==> x in l.shadow && !(x.Rec? && x.rec.name == user) {
      assert x.Rec? ==> SecretName(x.rec) == x.rec.name;
    }
  }

  lemma TakeOutLeavesOthers(byName: bool, groups: seq<Line<Group>>, user: string, own: Option<int>)
    ensures var after := TakeOut(byName, groups, user, own);
            && (forall x :: x in after && x.Rec? ==> user !in x.rec.members)
            && (forall gid, m :: m != user ==> (InTeam(after, gid, m) <==> InTeam(groups, gid, m)))
  {
    TakeOutMembers(byName, groups, user, own);
    forall gid, m | m != user ensures InTeam(TakeOut(byName, groups, user, own), gid, m) <==> InTeam(groups, gid, m) {
      TakeOutKeepsTeams(byName, groups, user, own, gid, m);
    }
  }

  /** A whole deletion, and the clearing of an account already gone, remove the user and touch nobody else. */
  lemma DeletionTouchesOnlyTheUser(l: Ledger, user: string, gid: int)
    ensures GoneAlone(l, Deleted(l, user, gid, 3), user)
    ensures LinesStand(l.groups, Deleted(l, user, gid, 3).groups, user, false, Some(gid))
    ensures !Has(l.passwd, AccountName, user) ==> GoneAlone(l, Cleared(l, user, 2), user)
    ensures LinesStand(l.groups, Cleared(l, user, 2).groups, user, true, None)
  {
    TakeOutLeavesLines(l.groups, user, false, Some(gid));
    TakeOutLeavesLines(l.groups, user, true, None);
    DropLeavesOthers(l, user);
    TakeOutLeavesOthers(false, l.groups, user, Some(gid));
    TakeOutLeavesOthers(true, l.groups, user, None);
    if !Has(l.passwd, AccountName, user) {
      DropNothing(l.passwd, AccountName, user);
    }
  }

  // ---------- the journal ----------

  /** `evidence` is the row an absence rests on, `seen` the length of the journal when it was looked up. */
  datatype Kind =
    | AccountCreated
    | AccountDeleted
    | WriteFailed
    | AlreadyAbsent(evidence: nat, seen: nat)
    | NotFound
    | Unverified
    | Unrelated

  /** Ids of rows are their positions. */
  datatype Row = Row(user: string, kind: Kind)

  predicate Genuine(r: Row, user: string) {
    r.user == user && (r.kind.AccountDeleted? || r.kind.WriteFailed?)
  }

  /** The id of the last creation, or -1. */
  function LastCreated(journal: seq<Row>, user: string): (k: int)
    ensures -1 <= k < |journal|
    ensures forall i :: k < i < |journal| ==> !(journal[i].user == user && journal[i].kind.AccountCreated?)
    ensures k >= 0 ==> journal[k].user == user && journal[k].kind.AccountCreated?
  {
    if journal == [] then -1
    else
      var last := journal[|journal| - 1];
      if last.user == user && last.kind.AccountCreated? then |journal| - 1
      else LastCreated(journal[..|journal| - 1], user)
  }

  /** The newest genuine deletion among the rows after `created`. */
  function NewestAfter(journal: seq<Row>, user: string, created: int): (e: Option<nat>)
    ensures e.Some? ==> created < e.value < |journal| && Genuine(journal[e.value], user)
    ensures e.None? ==> forall i :: created < i < |journal| && 0 <= i ==> !Genuine(journal[i], user)
    ensures e.Some? ==> forall i :: e.value < i < |journal| ==> !Genuine(journal[i], user)
  {
    if journal == [] || |journal| - 1 <= created then None
    else if Genuine(journal[|journal| - 1], user) then Some(|journal| - 1)
    else NewestAfter(journal[..|journal| - 1], user, created)
  }

  function Evidence(journal: seq<Row>, user: string): Option<nat> {
    NewestAfter(journal, user, LastCreated(journal, user))
  }

  /** No creation of the user is recorded in that stretch of the journal. */
  predicate NoCreation(journal: seq<Row>, user: string, from: nat, to: nat)
    requires to <= |journal|
  {
    forall i :: from <= i < to ==> !(journal[i].user == user && journal[i].kind.AccountCreated?)
  }

  /** There is evidence exactly when a genuine deletion is recorded after the last creation, and it is the newest. */
  lemma EvidenceExactly(journal: seq<Row>, user: string)
    ensures Evidence(journal, user).Some? <==>
              exists i: nat :: i < |journal| && Genuine(journal[i], user) && NoCreation(journal, user, i, |journal|)
    ensures Evidence(journal, user).Some? ==>
              var e := Evidence(journal, user).value;
              && e < |journal| && Genuine(journal[e], user) && NoCreation(journal, user, e, |journal|)
              && forall i :: e < i < |journal| ==> !Genuine(journal[i], user)
  {
  }

  // ---------- the step ----------

  datatype World = World(files: Ledger, journal: seq<Row>)

  /** Where it may break: writes fail or the process dies after `k` of them; rows may fail to be written. */
  datatype Fault =
    | NoFault
    | LookupFails
    | WriteFails(k: nat)
    | Dies(k: nat)

  datatype Outcome = Success | UserNotFound | AbsentUnverified | EvidenceLookupFailed | WriteBroke | Dead

  predicate Interrupted(fault: Fault, writes: nat) {
    (fault.WriteFails? || fault.Dies?) && fault.k < writes
  }

  class Controller {
    var files: Ledger
    var journal: seq<Row>

    constructor (files: Ledger, journal: seq<Row>)
      ensures this.files == files && this.journal == journal
    {
      this.files, this.journal := files, journal;
    }

    /** Journal rows of this step are best effort: when `lost`, the row is not there and nobody is told. */
    method Log(row: Row, lost: bool)
      modifies this`journal
      ensures journal == if lost then old(journal) else old(journal) + [row]
    {
      if !lost {
        journal := journal + [row];
      }
    }

    /** Takes the user out of the group lines; `own` is the number of the personal group, if it is known. */
    method CleanGroups(byName: bool, user: string, own: Option<int>) returns (cleaned: seq<Line<Group>>)
      ensures cleaned == TakeOut(byName, files.groups, user, own)
    {
      var lines := files.groups;
      cleaned := [];
      for k := 0 to |lines|
        invariant cleaned == TakeOut(byName, lines[..k], user, own)
      {
        TakeOutNext(byName, lines, k, user, own);
        if lines[k].Other? {
          cleaned := cleaned + [lines[k]];
        } else {
          var g := lines[k].rec;
          var members := if user in g.members then WithoutMember(g.members, user) else g.members;
          if user !in g.members { LeaveAfterJoin(g.members, user); }
          var personal := (byName && g.name == user) || (own.Some? && g.gid == own.value);
          if !(personal && members == []) {
            cleaned := cleaned + [Rec(g.(members := members))];
          }
        }
      }
      assert lines[..|lines|] == lines;
    }

    /** Clears what a half deletion left of an account that is no longer in passwd. */
    method RemoveLeftovers(user: string, fault: Fault) returns (whole: bool)
      modifies this`files
      ensures whole <==> !((fault.WriteFails? || fault.Dies?) && fault.k < FilesLeft(old(files), user))
      ensures files == Cleared(old(files), user, if whole then 2 else fault.k)
      ensures if whole then ClearedAlone(old(files), files, user) else BrokenOff(old(files), files, user, fault.k)
    {
      LeftoversAreThere(files, user);
      ClearingClears(files, user);
      var written := 0;
      var shadow := Drop(files.shadow, SecretName, user);
      if shadow != files.shadow {
        if Interrupted(fault, 1) {
          return false;
        }
        files := files.(shadow := shadow);
        written := 1;
      }
      var groups := CleanGroups(true, user, None);
      if groups != files.groups {
        if Interrupted(fault, written + 1) {
          return false;
        }
        files := files.(groups := groups);
      }
      return true;
    }

    /** An account that is not in the files: gone on evidence, or not to be believed. */
    method SettleAbsent(user: string, absentIsGoal: bool, fault: Fault, lost: bool) returns (outcome: Outcome)
      modifies this
      ensures outcome == AbsentOutcome(World(old(files), old(journal)), user, absentIsGoal, fault)
      ensures files == AbsentFiles(old(files), user, outcome, fault)
      ensures journal == old(journal) + AbsentRow(old(journal), user, outcome, lost)
      ensures SettledSo(old(journal), user, absentIsGoal, fault, outcome, FilesLeft(old(files), user))
      ensures if outcome.Success? then ClearedAlone(old(files), files, user)
              else if outcome.WriteBroke? || outcome.Dead? then BrokenOff(old(files), files, user, fault.k)
              else files == old(files)
      ensures if lost || outcome.WriteBroke? || outcome.Dead? || outcome.EvidenceLookupFailed? then journal == old(journal)
              else if outcome.UserNotFound? then journal == old(journal) + [Row(user, NotFound)]
              else if outcome.AbsentUnverified? then journal == old(journal) + [Row(user, Unverified)]
              else exists e: nat :: e < |old(journal)| && IsNewest(old(journal), user, e)
                     && journal == old(journal) + [Row(user, AlreadyAbsent(e, |old(journal)|))]
    {
      LeftoversAreThere(files, user);
      AbsentSettledExactly(World(files, journal), user, absentIsGoal, fault);
      EvidenceExactly(journal, user);
      var evidence: Option<nat> := None;
      if absentIsGoal {
        if fault.LookupFails? {
          return EvidenceLookupFailed;
        }
        evidence := Evidence(journal, user);
      }
      if evidence.Some? {
        var whole := RemoveLeftovers(user, fault);
        if !whole {
          return if fault.Dies? then Dead else WriteBroke;
        }
        Log(Row(user, AlreadyAbsent(evidence.value, |journal|)), lost);
        return Success;
      }
      if absentIsGoal {
        Log(Row(user, Unverified), lost);
        return AbsentUnverified;
      }
      Log(Row(user, NotFound), lost);
      return UserNotFound;
    }

    /** The step: everything from reading passwd to the journal row happens under the ledger's lock. */
    method DeleteAccount(user: string, absentIsGoal: bool, fault: Fault, lost: bool) returns (outcome: Outcome)
      modifies this
      ensures outcome.Success? ==> GoneAlone(old(files), files, user)
      ensures World(files, journal) == Removal(World(old(files), old(journal)), user, absentIsGoal, fault, lost, [])
      ensures !Has(old(files).passwd, AccountName, user) ==>
                && outcome == AbsentOutcome(World(old(files), old(journal)), user, absentIsGoal, fault)
                && journal == old(journal) + AbsentRow(old(journal), user, outcome, lost)
                && files == AbsentFiles(old(files), user, outcome, fault)
      ensures !Has(old(files).passwd, AccountName, user) ==>
                && SettledSo(old(journal), user, absentIsGoal, fault, outcome, FilesLeft(old(files), user))
                && if outcome.Success? then ClearedAlone(old(files), files, user)
                   else if outcome.WriteBroke? || outcome.Dead? then BrokenOff(old(files), files, user, fault.k)
                   else files == old(files)
      ensures Has(old(files).passwd, AccountName, user) ==>
                && (outcome.WriteBroke? <==> fault.WriteFails? && fault.k < 3)
                && (outcome.Dead? <==> fault.Dies? && fault.k < 3)
                && (outcome.Success? || outcome.WriteBroke? || outcome.Dead?)
                && journal == old(journal) + (if lost || outcome.Dead? then []
                                              else [Row(user, if outcome.Success? then AccountDeleted else WriteFailed)])
                && files == Deleted(old(files), user, LastAccount(old(files).passwd, user).value.gid,
                                    if outcome.Success? then 3 else fault.k)
      // the writes come in the order passwd, shadow, group
      ensures outcome.WriteBroke? || outcome.Dead? ==>
                && files.groups == old(files).groups && files.sudoers == old(files).sudoers
                && (Has(old(files).passwd, AccountName, user) && fault.k == 0 ==> files == old(files))
                && (Has(old(files).passwd, AccountName, user) && fault.k == 1 ==> files.shadow == old(files).shadow)
                && (Has(old(files).passwd, AccountName, user) && fault.k >= 1 ==> !Has(files.passwd, AccountName, user))
                && (Has(old(files).passwd, AccountName, user) && fault.k == 2 ==> !Has(files.shadow, SecretName, user))
      // groups that others are in, and shared ones that nobody is in any more, keep their lines
      ensures outcome.Success? ==>
                if Has(old(files).passwd, AccountName, user)
                then LinesStand(old(files).groups, files.groups, user, false,
                                Some(LastAccount(old(files).passwd, user).value.gid))
                else LinesStand(old(files).groups, files.groups, user, true, None)
    {
      var account := LastAccount(files.passwd, user);
      if account.None? {
        DeletionTouchesOnlyTheUser(files, user, 0);
        outcome := SettleAbsent(user, absentIsGoal, fault, lost);
        RemovalByCases(old(files), old(journal), user, absentIsGoal, fault, lost, files, journal);
        return;
      }
      DeletionTouchesOnlyTheUser(files, user, account.value.gid);
      DropLeavesOthers(files, user);
      if !Interrupted(fault, 1) {
        files := files.(passwd := Drop(files.passwd, AccountName, user));
      }
      if !Interrupted(fault, 2) {
        files := files.(shadow := Drop(files.shadow, SecretName, user));
      }
      if !Interrupted(fault, 3) {
        var groups := CleanGroups(false, user, Some(account.value.gid));
        files := files.(groups := groups);
      } else {
        if fault.Dies? {
          RemovalByCases(old(files), old(journal), user, absentIsGoal, fault, lost, files, journal);
          return Dead;
        }
        Log(Row(user, WriteFailed), lost);
        RemovalByCases(old(files), old(journal), user, absentIsGoal, fault, lost, files, journal);
        return WriteBroke;
      }
      Log(Row(user, AccountDeleted), lost);
      RemovalByCases(old(files), old(journal), user, absentIsGoal, fault, lost, files, journal);
      return Success;
    }
  }

  lemma TakeOutNext(byName: bool, lines: seq<Line<Group>>, k: nat, user: string, own: Option<int>)
    requires k < |lines|
    ensures TakeOut(byName, lines[..k + 1], user, own)
            == TakeOut(byName, lines[..k], user, own) + TakeOutLine(byName, lines[k], user, own)
  {
    assert lines[..k + 1] == lines[..k] + [lines[k]];
    TakeOutAppend(byName, lines[..k], [lines[k]], user, own);
    assert [lines[k]][1..] == [];
  }

  function AbsentOutcome(w: World, user: string, absentIsGoal: bool, fault: Fault): Outcome {
    if !absentIsGoal then UserNotFound
    else if fault.LookupFails? then EvidenceLookupFailed
    else if Evidence(w.journal, user).None? then AbsentUnverified
    else if !Interrupted(fault, Leftovers(w.files, user)) then Success
    else if fault.Dies? then Dead
    else WriteBroke
  }

  /** The files after an absent account has been settled. */
  function AbsentFiles(l: Ledger, user: string, outcome: Outcome, fault: Fault): Ledger {
    match outcome
    case Success => Cleared(l, user, 2)
    case WriteBroke => if fault.WriteFails? then Cleared(l, user, fault.k) else l
    case Dead => if fault.Dies? then Cleared(l, user, fault.k) else l
    case _ => l
  }

  function AbsentRow(journal: seq<Row>, user: string, outcome: Outcome, lost: bool): seq<Row> {
    if lost then []
    else
      match outcome
      case Success =>
        (match Evidence(journal, user) case Some(e) => [Row(user, AlreadyAbsent(e, |journal|))] case None => [])
      case UserNotFound => [Row(user, NotFound)]
      case AbsentUnverified => [Row(user, Unverified)]
      case _ => []
  }

  function PresentRow(user: string, fault: Fault, lost: bool): seq<Row> {
    if lost then []
    else if !Interrupted(fault, 3) then [Row(user, AccountDeleted)]
    else if fault.Dies? then []
    else [Row(user, WriteFailed)]
  }

  /** Somebody deleted the account after it was last created. */
  ghost predicate DeletedSince(journal: seq<Row>, user: string) {
    exists i: nat :: i < |journal| && journal[i].user == user
      && (journal[i].kind.AccountDeleted? || journal[i].kind.WriteFailed?)
      && forall k :: i < k < |journal| ==> !(journal[k].user == user && journal[k].kind.AccountCreated?)
  }

  /** The row is the newest deletion of the account, and no creation has been recorded since. */
  ghost predicate IsNewest(journal: seq<Row>, user: string, e: nat) {
    && e < |journal| && journal[e].user == user && (journal[e].kind.AccountDeleted? || journal[e].kind.WriteFailed?)
    && forall k :: e < k < |journal| && journal[k].user == user ==>
         !journal[k].kind.AccountCreated? && !journal[k].kind.AccountDeleted? && !journal[k].kind.WriteFailed?
  }

  /** How an absent account is settled, by the journal, the fault and the number of files that hold something. */
  ghost predicate SettledSo(journal: seq<Row>, user: string, absentIsGoal: bool, fault: Fault, outcome: Outcome, left: nat) {
    var believed := absentIsGoal && !fault.LookupFails? && DeletedSince(journal, user);
    && (outcome.UserNotFound? <==> !absentIsGoal)
    && (outcome.EvidenceLookupFailed? <==> absentIsGoal && fault.LookupFails?)
    && (outcome.AbsentUnverified? <==> absentIsGoal && !fault.LookupFails? && !DeletedSince(journal, user))
    && (outcome.WriteBroke? <==> believed && fault.WriteFails? && fault.k < left)
    && (outcome.Dead? <==> believed && fault.Dies? && fault.k < left)
  }

  /**
   * What becomes of a deletion that does not find the account: a plain refusal unless its absence is the goal; an
   * error when the journal cannot be asked; a refusal without a deletion on record; and otherwise success, unless
   * the clearing of what was left breaks.
   */
  lemma AbsentSettledExactly(w: World, user: string, absentIsGoal: bool, fault: Fault)
    ensures SettledSo(w.journal, user, absentIsGoal, fault, AbsentOutcome(w, user, absentIsGoal, fault), FilesLeft(w.files, user))
  {
    LeftoversAreThere(w.files, user);
    EvidenceExactly(w.journal, user);
    if e: nat :| e < |w.journal| && Genuine(w.journal[e], user) && NoCreation(w.journal, user, e, |w.journal|) {
      assert DeletedSince(w.journal, user);
    }
    if DeletedSince(w.journal, user) {
      var i: nat :| i < |w.journal| && w.journal[i].user == user
                    && (w.journal[i].kind.AccountDeleted? || w.journal[i].kind.WriteFailed?)
                    && forall k :: i < k < |w.journal| ==> !(w.journal[k].user == user && w.journal[k].kind.AccountCreated?);
      assert Genuine(w.journal[i], user) && NoCreation(w.journal, user, i, |w.journal|);
    }
  }

  // ---------- any history of files and journal ----------

  /**
   * A run of the deletion step, with the creations reported between its lookup and its row, which happen outside
   * the lock; the writes of a creation, its report, which comes later and may be lost, and its rollback; any
   * other change of the files; any other row.
   */
  datatype Event =
    | Delete(user: string, absentIsGoal: bool, fault: Fault, lost: bool, meanwhile: seq<string>)
    | Create(account: Account)
    | Report(user: string)
    | TakeBack(user: string, primaryGid: Option<int>)
    | Change(files: Ledger)
    | Other(user: string)

  function CreationRows(users: seq<string>): (r: seq<Row>)
    ensures |r| == |users| && forall k :: 0 <= k < |r| ==> r[k] == Row(users[k], AccountCreated)
  {
    seq(|users|, k requires 0 <= k < |users| => Row(users[k], AccountCreated))
  }

  /** What `DeleteAccount` does to files and journal. */
  function Removal(w: World, user: string, absentIsGoal: bool, fault: Fault, lost: bool, meanwhile: seq<string>): World {
    var rows := w.journal + CreationRows(meanwhile);
    match LastAccount(w.files.passwd, user)
    case Some(account) =>
      World(Deleted(w.files, user, account.gid, if Interrupted(fault, 3) then fault.k else 3),
            rows + PresentRow(user, fault, lost))
    case None =>
      var outcome := AbsentOutcome(w, user, absentIsGoal, fault);
      World(AbsentFiles(w.files, user, outcome, fault), rows + AbsentRow(w.journal, user, outcome, lost))
  }

  /** The cases of a run put together. */
  lemma RemovalByCases(files: Ledger, journal: seq<Row>, user: string, absentIsGoal: bool, fault: Fault, lost: bool,
                               files': Ledger, journal': seq<Row>)
    requires !Has(files.passwd, AccountName, user) ==>
               var outcome := AbsentOutcome(World(files, journal), user, absentIsGoal, fault);
               && journal' == journal + AbsentRow(journal, user, outcome, lost)
               && files' == AbsentFiles(files, user, outcome, fault)
    requires Has(files.passwd, AccountName, user) ==>
               && journal' == journal + PresentRow(user, fault, lost)
               && files' == Deleted(files, user, LastAccount(files.passwd, user).value.gid,
                                    if Interrupted(fault, 3) then fault.k else 3)
    ensures World(files', journal') == Removal(World(files, journal), user, absentIsGoal, fault, lost, [])
  {
    assert CreationRows([]) == [];
    assert journal + [] == journal;
  }

  function Happen(w: World, event: Event): World {
    match event
    case Delete(user, goal, fault, lost, meanwhile) => Removal(w, user, goal, fault, lost, meanwhile)
    case Create(account) =>
      if Has(w.files.passwd, AccountName, account.name) then w
      else w.(files := w.files.(passwd := w.files.passwd + [Rec(account)]))
    case Report(user) => w.(journal := w.journal + [Row(user, AccountCreated)])
    case TakeBack(user, primaryGid) => w.(files := RollBack(w.files, user, primaryGid))
    case Change(files) => w.(files := files)
    case Other(user) => w.(journal := w.journal + [Row(user, Unrelated)])
  }

  /** The world before every event and after the last. */
  function Worlds(w: World, events: seq<Event>): (ws: seq<World>)
    ensures |ws| == |events| + 1 && ws[0] == w
    ensures forall i :: 0 <= i < |events| ==> ws[i + 1] == Happen(ws[i], events[i])
    decreases |events|
  {
    if events == [] then [w] else [w] + Worlds(Happen(w, events[0]), events[1..])
  }

  ghost predicate IsHistory(ws: seq<World>, events: seq<Event>) {
    && |ws| == |events| + 1 && ws[0].journal == []
    && (forall i :: 0 <= i < |events| ==> ws[i + 1] == Happen(ws[i], events[i]))
  }

  predicate Listed(w: World, user: string) {
    Has(w.files.passwd, AccountName, user)
  }

  /** Event `i` is a deletion of the user that wrote row `e`, and it found the user's line in passwd. */
  ghost predicate DeletedBy(ws: seq<World>, events: seq<Event>, user: string, e: nat, i: nat)
    requires |ws| == |events| + 1
  {
    && i < |events| && events[i].Delete? && events[i].user == user
    && |ws[i].journal| <= e < |ws[i + 1].journal|
    && Listed(ws[i], user)
  }

  /** The failure that comes before anything has been written. */
  predicate FirstWriteFailed(fault: Fault) {
    fault.WriteFails? && fault.k == 0
  }

  ghost predicate HasAuthor(ws: seq<World>, events: seq<Event>, user: string, e: nat)
    requires |ws| == |events| + 1
  {
    exists i: nat :: DeletedBy(ws, events, user, e, i)
  }

  /** The row calls an account absent that a genuine row before it says was deleted, with no creation in between. */
  ghost predicate Rests(journal: seq<Row>, k: nat)
    requires k < |journal| && journal[k].kind.AlreadyAbsent?
  {
    var e, seen := journal[k].kind.evidence, journal[k].kind.seen;
    e < seen <= k && Genuine(journal[e], journal[k].user) && NoCreation(journal, journal[k].user, e, seen)
  }

  ghost predicate WellFounded(ws: seq<World>, events: seq<Event>, n: nat)
    requires |ws| == |events| + 1 && n <= |events|
  {
    var journal := ws[n].journal;
    && (forall e: nat :: e < |journal| && Genuine(journal[e], journal[e].user) ==> HasAuthor(ws, events, journal[e].user, e))
    && (forall k: nat :: k < |journal| && journal[k].kind.AlreadyAbsent? ==> Rests(journal, k))
  }

  /** Which new rows an event can write. */
  lemma NewRows(w: World, event: Event, k: nat)
    requires |w.journal| <= k < |Happen(w, event).journal|
    ensures w.journal <= Happen(w, event).journal
    ensures var row := Happen(w, event).journal[k];
            && (Genuine(row, row.user) ==>
                  event.Delete? && event.user == row.user && Listed(w, row.user) && k >= |w.journal| + |event.meanwhile|)
            && (row.kind.AlreadyAbsent? ==>
                  && Evidence(w.journal, row.user) == Some(row.kind.evidence)
                  && row.kind.seen == |w.journal|)
  {
  }

  lemma HappenExtends(w: World, event: Event)
    ensures w.journal <= Happen(w, event).journal
  {
  }

  lemma RestsOnEvidence(before: seq<Row>, after: seq<Row>, k: nat)
    requires before <= after && |before| <= k < |after| && after[k].kind.AlreadyAbsent?
    requires Evidence(before, after[k].user) == Some(after[k].kind.evidence) && after[k].kind.seen == |before|
    ensures Rests(after, k)
  {
    EvidenceExactly(before, after[k].user);
    assert forall i :: 0 <= i < |before| ==> after[i] == before[i];
  }

  lemma RestsStill(before: seq<Row>, after: seq<Row>, k: nat)
    requires before <= after && k < |before| && before[k].kind.AlreadyAbsent? && Rests(before, k)
    ensures Rests(after, k)
  {
    assert forall i :: 0 <= i < |before| ==> after[i] == before[i];
  }

  lemma StepKeepsWellFounded(ws: seq<World>, events: seq<Event>, n: nat)
    requires IsHistory(ws, events) && n < |events| && WellFounded(ws, events, n)
    ensures WellFounded(ws, events, n + 1)
  {
    var before, after := ws[n].journal, ws[n + 1].journal;
    assert ws[n + 1] == Happen(ws[n], events[n]);
    HappenExtends(ws[n], events[n]);
    forall e: nat | e < |after| && Genuine(after[e], after[e].user)
      ensures HasAuthor(ws, events, after[e].user, e)
    {
      if e < |before| {
        assert before[e] == after[e];
      } else {
        NewRows(ws[n], events[n], e);
        assert DeletedBy(ws, events, after[e].user, e, n);
      }
    }
    forall k: nat | k < |after| && after[k].kind.AlreadyAbsent? ensures Rests(after, k) {
      if k < |before| {
        assert before[k] == after[k];
        RestsStill(before, after, k);
      } else {
        NewRows(ws[n], events[n], k);
        RestsOnEvidence(before, after, k);
      }
    }
  }

  lemma {:induction false} HistoryIsWellFounded(ws: seq<World>, events: seq<Event>, n: nat)
    requires IsHistory(ws, events) && n <= |events|
    ensures WellFounded(ws, events, n)
  {
    if n > 0 {
      HistoryIsWellFounded(ws, events, n - 1);
      StepKeepsWellFounded(ws, events, n - 1);
    }
  }

  /** A deletion that found the line and wrote a row took the line out unless its very first write failed. */
  lemma RemovedUnlessFirstWriteFailed(w: World, event: Event)
    requires event.Delete? && Listed(w, event.user)
    requires |Happen(w, event).journal| > |w.journal| + |event.meanwhile|
    ensures !Listed(Happen(w, event), event.user) <==> !FirstWriteFailed(event.fault)
  {
    DropLeavesOthers(w.files, event.user);
  }

  lemma {:induction false} JournalGrows(ws: seq<World>, events: seq<Event>, i: nat, n: nat)
    requires IsHistory(ws, events) && i <= n <= |events|
    ensures ws[i].journal <= ws[n].journal
  {
    if i < n {
      JournalGrows(ws, events, i, n - 1);
      HappenExtends(ws[n - 1], events[n - 1]);
    }
  }

  /**
   * In any history of deletions, creations, rollbacks and other changes: an account that was accepted as absent
   * had been deleted before, by a deletion that found its line in passwd, with no creation reported in between.
   * That deletion took the line out if and only if it is not one that failed at its very first write. Absences
   * never justify each other.
   */
  lemma AbsenceRestsOnARemovalUnless(ws: seq<World>, events: seq<Event>, k: nat)
    requires IsHistory(ws, events)
    requires var journal := ws[|events|].journal; k < |journal| && journal[k].kind.AlreadyAbsent?
    ensures var journal, user := ws[|events|].journal, ws[|events|].journal[k].user;
            && Rests(journal, k)
            && exists i: nat :: DeletedBy(ws, events, user, journal[k].kind.evidence, i)
                  && (!Listed(ws[i + 1], user) <==> !FirstWriteFailed(events[i].fault))
  {
    var journal := ws[|events|].journal;
    var user, e := journal[k].user, journal[k].kind.evidence;
    HistoryIsWellFounded(ws, events, |events|);
    assert Rests(journal, k);
    assert journal[e].user == user;
    assert HasAuthor(ws, events, user, e);
    var i: nat :| DeletedBy(ws, events, user, e, i);
    JournalGrows(ws, events, i + 1, |events|);
    assert ws[i + 1] == Happen(ws[i], events[i]);
    assert ws[i + 1].journal[e] == journal[e];
    NewRows(ws[i], events[i], e);
    RemovedUnlessFirstWriteFailed(ws[i], events[i]);
  }

  /** One more event. */
  lemma Extend(ws: seq<World>, events: seq<Event>, event: Event) returns (ws': seq<World>, events': seq<Event>)
    requires IsHistory(ws, events)
    ensures events' == events + [event] && ws' == ws + [Happen(ws[|events|], event)]
    ensures IsHistory(ws', events')
  {
    events', ws' := events + [event], ws + [Happen(ws[|events|], event)];
  }

  /** An account is created and reported. */
  lemma CreatedAndReported(l: Ledger, account: Account) returns (ws: seq<World>, events: seq<Event>)
    requires !Has(l.passwd, AccountName, account.name)
    ensures IsHistory(ws, events) && |events| == 2 && ws[0] == World(l, [])
    ensures events[0].Create? && events[1].Report?
    ensures Listed(ws[2], account.name) && ws[2].journal == [Row(account.name, AccountCreated)]
  {
    ws, events := Extend([World(l, [])], [], Create(account));
    assert Rec(account) in ws[1].files.passwd && AccountName(account) == account.name;
    ws, events := Extend(ws, events, Report(account.name));
  }

  /** Its deletion fails at the first write. */
  lemma FailsAtFirst(w: World, user: string)
    requires Listed(w, user)
    ensures var failed := Happen(w, Delete(user, true, WriteFails(0), false, []));
            failed.files == w.files && failed.journal == w.journal + [Row(user, WriteFailed)]
  {
    assert CreationRows([]) == [];
    assert w.journal + [] == w.journal;
  }

  /** It is taken back, and a deletion finds it absent, and deleted on the evidence of the failure. */
  lemma TakenBack(w: World, user: string)
    requires w.journal == [Row(user, AccountCreated), Row(user, WriteFailed)]
    ensures !Listed(Happen(w, TakeBack(user, None)), user) && Happen(w, TakeBack(user, None)).journal == w.journal
  {
    RollBackTouchesOnlyTheName(w.files, user, None);
  }

  lemma AcceptedOnTheFailure(w: World, user: string)
    requires !Listed(w, user) && w.journal == [Row(user, AccountCreated), Row(user, WriteFailed)]
    ensures Happen(w, Delete(user, true, NoFault, false, [])).journal == w.journal + [Row(user, AlreadyAbsent(1, 2))]
  {
    EvidenceAfterFailure(user);
    assert CreationRows([]) == [];
    assert w.journal + [] == w.journal;
  }

  /**
   * The exception is real. An account is created and reported; its deletion fails at the first write; the home
   * step of the creation fails and takes the account back; the next deletion calls it deleted, although no
   * deletion ever took its line out.
   */
  lemma FailedFirstWriteCounts(l: Ledger, account: Account) returns (ws: seq<World>, events: seq<Event>)
    requires !Has(l.passwd, AccountName, account.name)
    ensures IsHistory(ws, events) && ws[0] == World(l, []) && |events| == 5
    ensures events[4] == Delete(account.name, true, NoFault, false, [])
    ensures ws[5].journal == ws[4].journal + [Row(account.name, AlreadyAbsent(1, 2))]
    ensures forall i :: 0 <= i < 5 && events[i].Delete? && Listed(ws[i], account.name) ==> Listed(ws[i + 1], account.name)
  {
    var user := account.name;
    ws, events := CreatedAndReported(l, account);
    FailsAtFirst(ws[2], user);
    ws, events := Extend(ws, events, Delete(user, true, WriteFails(0), false, []));
    TakenBack(ws[3], user);
    ws, events := Extend(ws, events, TakeBack(user, None));
    AcceptedOnTheFailure(ws[4], user);
    ws, events := Extend(ws, events, Delete(user, true, NoFault, false, []));
    assert !events[0].Delete? && !events[1].Delete? && !events[3].Delete?;
  }

  lemma EvidenceAfterFailure(user: string)
    ensures Evidence([Row(user, AccountCreated), Row(user, WriteFailed)], user) == Some(1)
  {
    var journal := [Row(user, AccountCreated), Row(user, WriteFailed)];
    assert journal[..1] == [Row(user, AccountCreated)];
    assert LastCreated(journal, user) == LastCreated(journal[..1], user) == 0;
  }
}
