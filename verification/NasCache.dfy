/**
 * The group lists a NAS pins in its security contexts, and the flush that follows a change of groups. The flush
 * must wait until the NAS itself knows the new groups, or the next contexts pin the old ones again.
 */
module NasCache {
  import opened Prelude

  type User = string
  type Gid = int

  datatype Group = Group(gid: Gid, members: seq<User>)

  /** The account names of passwd and the parsed lines of group. */
  datatype Ledger = Ledger(accounts: seq<User>, groups: seq<Group>)

  /** The band of shared gids; the upper end may be left open. */
  datatype Band = Band(low: Gid, high: Option<Gid>)

  predicate Shared(b: Band, gid: Gid) {
    b.low <= gid && (b.high.Some? ==> gid <= b.high.value)
  }

  // ---------- what the ledger says ----------

  function Known(b: Band, groups: seq<Group>): set<Gid> {
    set g | g in groups && Shared(b, g.gid) :: g.gid
  }

  predicate Counts(b: Band, accounts: seq<User>, groups: seq<Group>, u: User) {
    u in accounts || exists g :: g in groups && Shared(b, g.gid) && u in g.members
  }

  function GidsOf(b: Band, groups: seq<Group>, u: User): set<Gid> {
    set g | g in groups && Shared(b, g.gid) && u in g.members :: g.gid
  }

  /** The users that matter, each with the shared groups he should have; accounts without any included. */
  function Wanted(b: Band, accounts: seq<User>, groups: seq<Group>): map<User, set<Gid>> {
    var users := (set u | u in accounts) + (set g, u | g in groups && Shared(b, g.gid) && u in g.members :: u);
    map u | u in users :: GidsOf(b, groups, u)
  }

  /** The user is in a group of that number, by the group file. */
  ghost predicate InGroup(groups: seq<Group>, u: User, gid: Gid) {
    exists g :: g in groups && g.gid == gid && u in g.members
  }

  /** What is wanted, by the lines of the files: all accounts and members, with their groups of the shared band. */
  lemma WantedExactly(b: Band, accounts: seq<User>, groups: seq<Group>)
    ensures var wanted := Wanted(b, accounts, groups);
            && (forall u :: u in wanted <==>
                  u in accounts
                  || exists g :: g in groups && b.low <= g.gid && (b.high.Some? ==> g.gid <= b.high.value) && u in g.members)
            && (forall u, gid :: u in wanted ==>
                  (gid in wanted[u] <==> b.low <= gid && (b.high.Some? ==> gid <= b.high.value) && InGroup(groups, u, gid)))
  {
  }

  method SharedGids(b: Band, groups: seq<Group>) returns (gids: set<Gid>)
    ensures gids == Known(b, groups)
    ensures forall gid :: gid in gids <==>
              b.low <= gid && (b.high.Some? ==> gid <= b.high.value) && exists g :: g in groups && g.gid == gid
  {
    gids := {};
    for k := 0 to |groups|
      invariant gids == Known(b, groups[..k])
    {
      assert groups[..k + 1] == groups[..k] + [groups[k]];
      if !(groups[k].gid < b.low || (b.high.Some? && groups[k].gid > b.high.value)) {
        gids := gids + {groups[k].gid};
      }
    }
    assert groups[..|groups|] == groups;
  }

  /** One more member of a shared group. */
  method AddMember(wanted: map<User, set<Gid>>, u: User, gid: Gid) returns (r: map<User, set<Gid>>)
    ensures r == wanted[u := (if u in wanted then wanted[u] else {}) + {gid}]
  {
    r := if u in wanted then wanted else wanted[u := {}];
    r := r[u := r[u] + {gid}];
  }

  /** The map after the members of one shared group have been added. */
  ghost predicate Added(before: map<User, set<Gid>>, after: map<User, set<Gid>>, members: seq<User>, gid: Gid) {
    && (forall u :: u in after <==> u in before || u in members)
    && (forall u :: u in after ==>
          after[u] == (if u in before then before[u] else {}) + (if u in members then {gid} else {}))
  }

  method AddMembers(wanted: map<User, set<Gid>>, members: seq<User>, gid: Gid) returns (r: map<User, set<Gid>>)
    ensures Added(wanted, r, members, gid)
  {
    r := wanted;
    for k := 0 to |members|
      invariant Added(wanted, r, members[..k], gid)
    {
      assert members[..k + 1] == members[..k] + [members[k]];
      r := AddMember(r, members[k], gid);
    }
    assert members[..|members|] == members;
  }

  method WantedByUser(b: Band, accounts: seq<User>, groups: seq<Group>) returns (wanted: map<User, set<Gid>>)
    ensures wanted == Wanted(b, accounts, groups)
    ensures forall u :: u in wanted <==>
              u in accounts
              || exists g :: g in groups && b.low <= g.gid && (b.high.Some? ==> g.gid <= b.high.value) && u in g.members
    ensures forall u, gid :: u in wanted ==>
              (gid in wanted[u] <==> b.low <= gid && (b.high.Some? ==> gid <= b.high.value) && InGroup(groups, u, gid))
  {
    wanted := map u | u in accounts :: {};
    forall u ensures GidsOf(b, [], u) == {} {}
    for k := 0 to |groups|
      invariant wanted == Wanted(b, accounts, groups[..k])
    {
      ghost var before := wanted;
      var g := groups[k];
      if !(g.gid < b.low || (b.high.Some? && g.gid > b.high.value)) {
        wanted := AddMembers(wanted, g.members, g.gid);
      }
      OneMoreGroup(b, accounts, groups[..k], g, wanted);
      assert groups[..k + 1] == groups[..k] + [g];
    }
    assert groups[..|groups|] == groups;
    WantedExactly(b, accounts, groups);
  }

  lemma OneMoreGroup(b: Band, accounts: seq<User>, groups: seq<Group>, g: Group, after: map<User, set<Gid>>)
    requires var before := Wanted(b, accounts, groups);
             if Shared(b, g.gid) then Added(before, after, g.members, g.gid) else after == before
    ensures after == Wanted(b, accounts, groups + [g])
  {
    var more := Wanted(b, accounts, groups + [g]);
    forall u ensures u in after <==> u in more {
      WantedUsers(b, accounts, groups, u);
      WantedUsers(b, accounts, groups + [g], u);
      if Counts(b, accounts, groups, u) && u !in accounts {
        var h :| h in groups && Shared(b, h.gid) && u in h.members;
        assert h in groups + [g];
      }
      assert g in groups + [g];
    }
    forall u | u in after ensures after[u] == more[u] {
      WantedUsers(b, accounts, groups, u);
      assert GidsOf(b, groups + [g], u) == GidsOf(b, groups, u) + GidsOf(b, [g], u);
      if u !in Wanted(b, accounts, groups) {
        assert GidsOf(b, groups, u) == {};
      }
      assert GidsOf(b, [g], u) == if Shared(b, g.gid) && u in g.members then {g.gid} else {} by { assert g in [g]; }
    }
  }

  lemma WantedUsers(b: Band, accounts: seq<User>, groups: seq<Group>, u: User)
    ensures u in Wanted(b, accounts, groups) <==> Counts(b, accounts, groups, u)
  {
  }

  // ---------- agreement ----------

  /** What the NAS says about a user: his gids, or nothing when it does not know the name. */
  type View = map<User, set<Gid>>

  /** The NAS has the user's groups as they should be, leaving aside gids the ledger does not know. */
  predicate Agrees(nas: View, wanted: map<User, set<Gid>>, known: set<Gid>, u: User)
    requires u in wanted
  {
    if u in nas then nas[u] * known == wanted[u] else wanted[u] == {}
  }

  predicate AgreesAll(nas: View, wanted: map<User, set<Gid>>, known: set<Gid>) {
    forall u :: u in wanted ==> Agrees(nas, wanted, known, u)
  }

  /** The NAS has every user of the ledger in exactly those shared groups in which the ledger has him. */
  ghost predicate NasKnows(b: Band, accounts: seq<User>, groups: seq<Group>, nas: View) {
    forall u, gid ::
      && (u in accounts
          || exists g :: g in groups && b.low <= g.gid && (b.high.Some? ==> g.gid <= b.high.value) && u in g.members)
      && b.low <= gid && (b.high.Some? ==> gid <= b.high.value) && (exists g :: g in groups && g.gid == gid)
      ==> (InGroup(groups, u, gid) <==> u in nas && gid in nas[u])
  }

  lemma AgreementIsKnowledge(b: Band, accounts: seq<User>, groups: seq<Group>, nas: View)
    ensures AgreesAll(nas, Wanted(b, accounts, groups), Known(b, groups)) <==> NasKnows(b, accounts, groups, nas)
  {
    var wanted, known := Wanted(b, accounts, groups), Known(b, groups);
    WantedExactly(b, accounts, groups);
    forall u | u in wanted
      ensures Agrees(nas, wanted, known, u) <==>
                forall gid :: gid in known ==> (gid in wanted[u] <==> u in nas && gid in nas[u])
    {
      assert wanted[u] <= known;
    }
  }

  // ---------- the reconciler, undisturbed ----------

  datatype Context = Context(user: User, gids: set<Gid>, at: nat)

  datatype Fault = NoFault | QueryFails | FlushFails | StateWriteFails

  class Stack {
    const band: Band
    var ledger: Ledger
    var mtime: int
    var recorded: int
    var nas: View
    var contexts: map<int, Context>

    constructor (band: Band, ledger: Ledger, mtime: int, recorded: int, nas: View, contexts: map<int, Context>)
      ensures this.band == band && this.ledger == ledger && this.mtime == mtime
      ensures this.recorded == recorded && this.nas == nas && this.contexts == contexts
    {
      this.band, this.ledger, this.mtime := band, ledger, mtime;
      this.recorded, this.nas, this.contexts := recorded, nas, contexts;
    }

    /** What the flush waits for. */
    ghost predicate CaughtUp()
      reads this
    {
      NasKnows(band, ledger.accounts, ledger.groups, nas)
    }

    /** Flushes if the ledger has changed since the recorded flush and the NAS has caught up with it. */
    method Reconcile(fault: Fault) returns (flushed: bool)
      modifies this`contexts, this`recorded
      ensures flushed <==> old(recorded) < mtime && CaughtUp() && fault.NoFault?
      ensures recorded == if flushed then mtime else old(recorded)
      ensures contexts == if old(recorded) < mtime && CaughtUp() && (fault.NoFault? || fault.StateWriteFails?)
                          then map[] else old(contexts)
    {
      AgreementIsKnowledge(band, ledger.accounts, ledger.groups, nas);
      if recorded >= mtime {
        return false;
      }
      var wanted := WantedByUser(band, ledger.accounts, ledger.groups);
      var known := SharedGids(band, ledger.groups);
      if fault.QueryFails? {
        return false;
      }
      var stale := set u | u in wanted && !Agrees(nas, wanted, known, u);
      if stale != {} {
        assert !AgreesAll(nas, wanted, known) by {
          var u :| u in stale;
          assert !Agrees(nas, wanted, known, u);
        }
        return false;
      }
      forall u | u in wanted ensures Agrees(nas, wanted, known, u) {
        assert u !in stale;
      }
      if fault.FlushFails? {
        return false;
      }
      contexts := map[];
      if fault.StateWriteFails? {
        return false;
      }
      recorded := mtime;
      return true;
    }
  }
}
