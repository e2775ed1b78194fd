/**
 * The numbers of accounts and groups: how the next one is chosen, and how a person who returns gets the old one
 * back. A number once handed out must never reach another person, whatever is created, taken back or cut off.
 */
module LedgerIds {
  import opened Prelude

  // ---------- choosing the next number ----------

  /** The first number from `from` on that is not used. */
  function FirstFree(used: set<int>, from: int): (r: int)
    ensures from <= r && r !in used
    ensures forall u :: from <= u < r ==> u in used
    decreases |used|
  {
    if from !in used then from
    else
      var r := FirstFree(used - {from}, from + 1);
      assert forall u :: from <= u < r ==> u in used by {
        forall u | from <= u < r ensures u in used { assert u == from || u in used - {from}; }
      }
      r
  }

  /** The greatest of `numbers` and `least`. */
  function Greatest(numbers: seq<int>, least: int): (r: int)
    ensures r == least || r in numbers
    ensures least <= r && forall n :: n in numbers ==> n <= r
  {
    if numbers == [] then least
    else
      assert forall n :: n in numbers ==> n == numbers[0] || n in numbers[1..];
      Max(numbers[0], Greatest(numbers[1..], least))
  }

  datatype Account = Account(name: string, uid: int, home: string)

  const HOME_ROOT := "/home/"

  predicate Managed(a: Account, minUid: int) {
    a.uid >= minUid && HOME_ROOT <= a.home
  }

  function Uids(passwd: seq<Account>): set<int> {
    set a | a in passwd :: a.uid
  }

  function ManagedUids(passwd: seq<Account>, minUid: int): (r: seq<int>)
    ensures forall u :: u in r <==> exists a :: a in passwd && Managed(a, minUid) && a.uid == u
  {
    if passwd == [] then []
    else
      var rest := ManagedUids(passwd[1..], minUid);
      assert forall a :: a in passwd <==> a == passwd[0] || a in passwd[1..];
      if Managed(passwd[0], minUid) then [passwd[0].uid] + rest else rest
  }

  function NextUid(passwd: seq<Account>, minUid: int, issuedMax: int): int {
    FirstFree(Uids(passwd), Max(Greatest(ManagedUids(passwd, minUid), minUid - 1), issuedMax) + 1)
  }

  /** The next uid is the least unused one above everything managed, everything issued and the range's start. */
  lemma NextUidIsLeast(passwd: seq<Account>, minUid: int, issuedMax: int)
    ensures var r := NextUid(passwd, minUid, issuedMax);
            && UidMayFollow(passwd, minUid, issuedMax, r)
            && r !in Uids(passwd)
            && forall u :: UidMayFollow(passwd, minUid, issuedMax, u) && u !in Uids(passwd) ==> r <= u
  {
    var managed := ManagedUids(passwd, minUid);
    var floor := Max(Greatest(managed, minUid - 1), issuedMax);
    assert forall a :: a in passwd && Managed(a, minUid) ==> a.uid in managed;
    forall u | UidMayFollow(passwd, minUid, issuedMax, u) && u !in Uids(passwd)
      ensures NextUid(passwd, minUid, issuedMax) <= u
    {
      assert floor + 1 <= u;
    }
  }

  predicate UidMayFollow(passwd: seq<Account>, minUid: int, issuedMax: int, u: int) {
    u >= minUid && u > issuedMax && forall a :: a in passwd && a.uid >= minUid && "/home/" <= a.home ==> a.uid < u
  }

  /** Steps over used numbers from `from` on. */
  method SkipUsed(used: set<int>, from: int) returns (candidate: int)
    ensures candidate == FirstFree(used, from)
  {
    candidate := from;
    ghost var rest := used;
    while candidate in used
      invariant rest <= used && forall u :: u in used && u >= candidate ==> u in rest
      invariant FirstFree(used, from) == FirstFree(rest, candidate)
      decreases |rest|
    {
      rest := rest - {candidate};
      candidate := candidate + 1;
    }
  }

  method AllocateNextUid(passwd: seq<Account>, minUid: int, issuedMax: int) returns (uid: int)
    ensures uid == NextUid(passwd, minUid, issuedMax)
  {
    var used, managed := Uids(passwd), ManagedUids(passwd, minUid);
    uid := SkipUsed(used, Max(Greatest(managed, minUid - 1), issuedMax) + 1);
  }

  // ---------- what a history may do ----------

  /** The band of uids; the upper end may be left open. */
  datatype Band = Band(low: int, high: Option<int>)

  predicate InBand(b: Band, u: int) {
    b.low <= u && (b.high.Some? ==> u <= b.high.value)
  }

  datatype Issue = Issue(uid: int, name: string, automatic: bool)

  /** What a creation learnt about the home before it took the ledger's lock. */
  datatype Looked = Looked(name: string, uid: Option<int>, shared: bool)

  /** `held` collects who has held which number, from the start on; `log` every number handed out since. */
  datatype State = State(
    passwd: seq<Account>,
    homes: map<string, int>,
    issuedMax: int,
    procs: map<int, Looked>,
    held: set<(int, string)>,
    log: seq<Issue>)

  datatype Action =
    | LookUp(p: int, name: string, candidates: set<int>)
    | Create(p: int, groupTaken: bool, dies: bool)
    | Remove(name: string)
    | MakeHome(name: string, uid: int)
    | DropHome(name: string)

  predicate HasAccount(passwd: seq<Account>, name: string) {
    exists a :: a in passwd && a.name == name
  }

  function Without(passwd: seq<Account>, name: string): (r: seq<Account>)
    ensures forall a :: a in r <==> a in passwd && a.name != name
  {
    if passwd == [] then []
    else
      var rest := Without(passwd[1..], name);
      assert forall a :: a in passwd <==> a == passwd[0] || a in passwd[1..];
      if passwd[0].name == name then rest else [passwd[0]] + rest
  }

  /** The old number to give back: the owner of the home, if it is among the candidates. */
  function Returning(s: State, name: string, candidates: set<int>): Looked {
    if HasAccount(s.passwd, name) || name !in s.homes || s.homes[name] !in candidates then Looked(name, None, false)
    else Looked(name, Some(s.homes[name]), exists m :: m in s.homes && m != name && s.homes[m] == s.homes[name])
  }

  predicate MayReclaim(b: Band, s: State, l: Looked, groupTaken: bool)
    requires l.uid.Some?
  {
    InBand(b, l.uid.value) && l.uid.value !in Uids(s.passwd) && !groupTaken && !l.shared
  }

  /** The number is recorded first and written after; a controller that dies between the two wastes it. */
  function Hand(s: State, name: string, uid: int, automatic: bool, dies: bool): State {
    s.(issuedMax := Max(s.issuedMax, uid),
       held := s.held + {(uid, name)},
       log := s.log + [Issue(uid, name, automatic)],
       passwd := if dies then s.passwd else s.passwd + [Account(name, uid, HOME_ROOT + name)])
  }

  function Act(b: Band, s: State, a: Action): Option<State> {
    match a
    case LookUp(p, name, candidates) =>
      if p in s.procs then None else Some(s.(procs := s.procs[p := Returning(s, name, candidates)]))
    case Create(p, groupTaken, dies) =>
      if p !in s.procs then None
      else
        var l, s' := s.procs[p], s.(procs := s.procs - {p});
        if HasAccount(s.passwd, l.name) then Some(s')
        else if l.uid.Some? then
          if MayReclaim(b, s, l, groupTaken) then Some(Hand(s', l.name, l.uid.value, false, dies)) else Some(s')
        else
          var uid := NextUid(s.passwd, b.low, s.issuedMax);
          if InBand(b, uid) then Some(Hand(s', l.name, uid, true, dies)) else Some(s')
    case Remove(name) => Some(s.(passwd := Without(s.passwd, name)))
    case MakeHome(name, uid) =>
      // a job makes homes only for a uid its own account step or the ledger gave it
      if (uid, name) !in s.held then None
      else if name in s.homes && s.homes[name] != uid then Some(s)
      else Some(s.(homes := s.homes[name := uid]))
    case DropHome(name) => Some(s.(homes := s.homes - {name}))
  }

  function Play(b: Band, s: State, actions: seq<Action>): Option<State>
    decreases |actions|
  {
    if actions == [] then Some(s)
    else
      match Act(b, s, actions[0])
      case None => None
      case Some(next) => Play(b, next, actions[1..])
  }

  // ---------- what always holds ----------

  ghost predicate NamesAndUidsUnique(passwd: seq<Account>) {
    forall i, j :: 0 <= i < j < |passwd| ==> passwd[i].name != passwd[j].name && passwd[i].uid != passwd[j].uid
  }

  /** Nobody but `name` has held the number. */
  ghost predicate OnlyHeldBy(held: set<(int, string)>, uid: int, name: string) {
    forall h :: h in held && h.0 == uid ==> h.1 == name
  }

  ghost predicate LogHolds(s: State) {
    && (forall k :: 0 <= k < |s.log| ==> (s.log[k].uid, s.log[k].name) in s.held)
    && (forall i, k :: 0 <= i < k < |s.log| && s.log[k].automatic ==> s.log[i].uid < s.log[k].uid)
  }

  ghost predicate Inv(b: Band, s: State) {
    && NamesAndUidsUnique(s.passwd)
    && (forall h :: h in s.held ==> h.0 <= s.issuedMax && OnlyHeldBy(s.held, h.0, h.1))
    && (forall a :: a in s.passwd ==> OnlyHeldBy(s.held, a.uid, a.name))
    && (forall a :: a in s.passwd && Managed(a, b.low) && InBand(b, a.uid) ==> (a.uid, a.name) in s.held)
    && (forall n :: n in s.homes ==> (s.homes[n], n) in s.held)
    && (forall p :: p in s.procs && s.procs[p].uid.Some? ==> (s.procs[p].uid.value, s.procs[p].name) in s.held)
    && LogHolds(s)
  }

  lemma {:induction false} WithoutKeepsUnique(passwd: seq<Account>, name: string)
    requires NamesAndUidsUnique(passwd)
    ensures NamesAndUidsUnique(Without(passwd, name))
  {
    if passwd != [] {
      var rest := Without(passwd[1..], name);
      WithoutKeepsUnique(passwd[1..], name);
      forall j | 0 <= j < |rest| ensures rest[j].name != passwd[0].name && rest[j].uid != passwd[0].uid {
        assert rest[j] in passwd[1..];
      }
    }
  }

  /** Handing a number to `name` is sound if it is new to everybody, or was `name`'s and nobody uses it. */
  lemma HandKeeps(b: Band, s: State, name: string, uid: int, automatic: bool, dies: bool)
    requires Inv(b, s) && !HasAccount(s.passwd, name) && uid !in Uids(s.passwd)
    requires if automatic then uid > s.issuedMax else (uid, name) in s.held
    ensures Inv(b, Hand(s, name, uid, automatic, dies))
  {
    var s' := Hand(s, name, uid, automatic, dies);
    assert OnlyHeldBy(s.held, uid, name);
    assert forall a :: a in s.passwd ==> a.uid in Uids(s.passwd) && a.name != name;
    forall h | h in s'.held ensures OnlyHeldBy(s'.held, h.0, h.1) {
      assert h in s.held ==> OnlyHeldBy(s.held, h.0, h.1);
    }
    forall a | a in s'.passwd ensures OnlyHeldBy(s'.held, a.uid, a.name) {
      assert a in s.passwd ==> OnlyHeldBy(s.held, a.uid, a.name);
    }
    HandKeepsLog(s, name, uid, automatic, dies);
  }

  lemma HandKeepsLog(s: State, name: string, uid: int, automatic: bool, dies: bool)
    requires LogHolds(s) && (forall h :: h in s.held ==> h.0 <= s.issuedMax)
    requires automatic ==> uid > s.issuedMax
    ensures LogHolds(Hand(s, name, uid, automatic, dies))
  {
  }

  lemma CreateKeeps(b: Band, s: State, p: int, groupTaken: bool, dies: bool)
    requires Inv(b, s) && p in s.procs
    ensures Inv(b, Act(b, s, Create(p, groupTaken, dies)).value)
  {
    var l, s' := s.procs[p], s.(procs := s.procs - {p});
    if !HasAccount(s.passwd, l.name) {
      if l.uid.Some? {
        if MayReclaim(b, s, l, groupTaken) {
          HandKeeps(b, s', l.name, l.uid.value, false, dies);
        }
      } else {
        NextUidIsLeast(s.passwd, b.low, s.issuedMax);
        HandKeeps(b, s', l.name, NextUid(s.passwd, b.low, s.issuedMax), true, dies);
      }
    }
  }

  lemma ActKeeps(b: Band, s: State, a: Action)
    requires Inv(b, s) && Act(b, s, a).Some?
    ensures Inv(b, Act(b, s, a).value)
  {
    match a {
      case Create(p, groupTaken, dies) => CreateKeeps(b, s, p, groupTaken, dies);
      case Remove(name) => WithoutKeepsUnique(s.passwd, name);
      case _ =>
    }
  }

  lemma {:induction false} PlayKeeps(b: Band, s: State, actions: seq<Action>)
    requires Inv(b, s) && Play(b, s, actions).Some?
    ensures Inv(b, Play(b, s, actions).value)
    decreases |actions|
  {
    if actions != [] {
      ActKeeps(b, s, actions[0]);
      PlayKeeps(b, Act(b, s, actions[0]).value, actions[1..]);
    }
  }

  // ---------- the results ----------

  /** Who holds what when the history begins: the managed accounts of the band and the owners of homes. */
  function FirstHolders(b: Band, passwd: seq<Account>, homes: map<string, int>): set<(int, string)> {
    (set a | a in passwd && Managed(a, b.low) && InBand(b, a.uid) :: (a.uid, a.name))
    + (set n | n in homes :: (homes[n], n))
  }

  function Begin(b: Band, passwd: seq<Account>, homes: map<string, int>, issuedMax: int): State {
    State(passwd, homes, issuedMax, map[], FirstHolders(b, passwd, homes), [])
  }

  /** Names and uids are unique, and homes belong to numbers that were issued to their names alone. */
  ghost predicate SaneStart(passwd: seq<Account>, homes: map<string, int>, issuedMax: int) {
    && NamesAndUidsUnique(passwd)
    && (forall n :: n in homes ==> homes[n] <= issuedMax)
    && (forall m, n :: m in homes && n in homes && homes[m] == homes[n] ==> m == n)
    && (forall a, n :: a in passwd && n in homes && a.uid == homes[n] ==> a.name == n)
  }

  /** The record of issued numbers is not behind the managed accounts of the band. */
  predicate RecordCovers(b: Band, passwd: seq<Account>, issuedMax: int) {
    forall a :: a in passwd && Managed(a, b.low) && InBand(b, a.uid) ==> a.uid <= issuedMax
  }

  lemma BeginHolds(b: Band, passwd: seq<Account>, homes: map<string, int>, issuedMax: int)
    requires SaneStart(passwd, homes, issuedMax) && RecordCovers(b, passwd, issuedMax)
    ensures Inv(b, Begin(b, passwd, homes, issuedMax))
  {
  }

  /** No number has been held by two names, counting the managed accounts the history began with. */
  ghost predicate OnePersonPerNumber(held: set<(int, string)>) {
    forall g, h :: g in held && h in held && g.0 == h.0 ==> g.1 == h.1
  }

  /**
   * Over any history of creations, returns, removals, homes made and dropped, and deaths between recording and
   * writing: automatic numbers strictly increase, a number that is given back goes to the name that has held it,
   * no number is ever held by two names, and the account file stays free of duplicates.
   */
  lemma NumbersAreNeverShared(b: Band, passwd: seq<Account>, homes: map<string, int>, issuedMax: int, actions: seq<Action>)
    requires SaneStart(passwd, homes, issuedMax) && RecordCovers(b, passwd, issuedMax)
    requires Play(b, Begin(b, passwd, homes, issuedMax), actions).Some?
    ensures var s := Play(b, Begin(b, passwd, homes, issuedMax), actions).value;
            && OnePersonPerNumber(s.held)
            && FirstHolders(b, passwd, homes) <= s.held
            && (forall k :: 0 <= k < |s.log| ==> (s.log[k].uid, s.log[k].name) in s.held)
            && (forall i, k :: 0 <= i < k < |s.log| && s.log[k].automatic ==> s.log[i].uid < s.log[k].uid)
            && NamesAndUidsUnique(s.passwd)
  {
    BeginHolds(b, passwd, homes, issuedMax);
    PlayKeeps(b, Begin(b, passwd, homes, issuedMax), actions);
    HeldGrows(b, Begin(b, passwd, homes, issuedMax), actions);
    var s := Play(b, Begin(b, passwd, homes, issuedMax), actions).value;
    forall g, h | g in s.held && h in s.held && g.0 == h.0 ensures g.1 == h.1 {
      assert OnlyHeldBy(s.held, g.0, g.1);
    }
  }

  lemma {:induction false} HeldGrows(b: Band, s: State, actions: seq<Action>)
    requires Play(b, s, actions).Some?
    ensures s.held <= Play(b, s, actions).value.held
    decreases |actions|
  {
    if actions != [] {
      HeldGrows(b, Act(b, s, actions[0]).value, actions[1..]);
    }
  }

  // ---------- who gets the old number, and who is refused ----------

  /** The number goes to the name: it is recorded, and the account is there unless the controller has died. */
  ghost predicate Handed(s: State, s': State, name: string, uid: int, automatic: bool, dies: bool) {
    && s'.log == s.log + [Issue(uid, name, automatic)] && s'.issuedMax == Max(s.issuedMax, uid)
    && s'.passwd == if dies then s.passwd else s.passwd + [Account(name, uid, "/home/" + name)]
  }

  ghost predicate NothingHanded(s: State, s': State) {
    s'.log == s.log && s'.issuedMax == s.issuedMax && s'.passwd == s.passwd
  }

  /** The look before the creation: the owner of the home, if he is expected and has no account. */
  lemma LookUpFindsExactly(b: Band, s: State, p: int, name: string, candidates: set<int>)
    requires p !in s.procs
    ensures var l := Act(b, s, LookUp(p, name, candidates)).value.procs[p];
            && l.name == name
            && (forall u :: l.uid == Some(u) <==>
                  && (forall a :: a in s.passwd ==> a.name != name)
                  && name in s.homes && s.homes[name] == u && u in candidates)
            && (l.uid.Some? ==> (l.shared <==> exists m :: m in s.homes && m != name && s.homes[m] == s.homes[name]))
  {
  }

  /**
   * The creation: a name that is taken is refused; a person who returns gets the old number if it lies in the band
   * and no account, group or other home has it, and is refused otherwise, never given a new one; anybody else gets
   * the next number, if the band has one.
   */
  lemma CreateHandsExactly(b: Band, s: State, p: int, groupTaken: bool, dies: bool)
    requires p in s.procs
    ensures var l, s' := s.procs[p], Act(b, s, Create(p, groupTaken, dies)).value;
            if exists a :: a in s.passwd && a.name == l.name then NothingHanded(s, s')
            else
              match l.uid
              case Some(u) =>
                if && b.low <= u && (b.high.Some? ==> u <= b.high.value)
                   && (forall a :: a in s.passwd ==> a.uid != u) && !groupTaken && !l.shared
                then Handed(s, s', l.name, u, false, dies)
                else NothingHanded(s, s')
              case None =>
                var u := NextUid(s.passwd, b.low, s.issuedMax);
                if b.high.Some? && u > b.high.value then NothingHanded(s, s') else Handed(s, s', l.name, u, true, dies)
  {
    NextUidIsLeast(s.passwd, b.low, s.issuedMax);
    if s.procs[p].uid.Some? {
      assert s.procs[p].uid.value in Uids(s.passwd) <==> exists a :: a in s.passwd && a.uid == s.procs[p].uid.value;
    }
  }

  /**
   * Whoever returns to a home of his own, undisturbed, has his old number again if and only if it lies in the band
   * and nobody else has it, be it by an account, a group or a home.
   */
  lemma ReturningGetsTheOldNumber(b: Band, s: State, p: int, name: string, u: int, candidates: set<int>, groupTaken: bool)
    requires p !in s.procs && (forall a :: a in s.passwd ==> a.name != name)
    requires name in s.homes && s.homes[name] == u && u in candidates
    ensures var looked := Act(b, s, LookUp(p, name, candidates)).value;
            var made := Act(b, looked, Create(p, groupTaken, false)).value;
            && (Account(name, u, "/home/" + name) in made.passwd <==>
                  && b.low <= u && (b.high.Some? ==> u <= b.high.value)
                  && (forall a :: a in s.passwd ==> a.uid != u) && !groupTaken
                  && (forall m :: m in s.homes && m != name ==> s.homes[m] != u))
            && (forall a :: a in made.passwd && a !in s.passwd ==> a.uid == u)
  {
    var looked := Act(b, s, LookUp(p, name, candidates)).value;
    LookUpFindsExactly(b, s, p, name, candidates);
    CreateHandsExactly(b, looked, p, groupTaken, false);
    var made := Act(b, looked, Create(p, groupTaken, false)).value;
    if Handed(looked, made, name, u, false, false) {
      assert made.passwd[|s.passwd|] == Account(name, u, "/home/" + name);
    }
  }

  // ---------- only with a record that covers the accounts ----------

  lemma {:induction false} PlayJoin(b: Band, s: State, x: seq<Action>, y: seq<Action>)
    requires Play(b, s, x).Some?
    ensures Play(b, s, x + y) == Play(b, Play(b, s, x).value, y)
    decreases |x|
  {
    if x == [] {
      assert x + y == y;
    } else {
      assert (x + y)[0] == x[0] && (x + y)[1..] == x[1..] + y;
      PlayJoin(b, Act(b, s, x[0]).value, x[1..], y);
    }
  }

  /** Everybody leaves. */
  lemma {:induction false} Clear(b: Band, s: State) returns (actions: seq<Action>)
    ensures Play(b, s, actions) == Some(s.(passwd := []))
    decreases |s.passwd|
  {
    if s.passwd == [] {
      actions := [];
    } else {
      var name := s.passwd[0].name;
      WithoutShorter(s.passwd, name);
      var next := s.(passwd := Without(s.passwd, name));
      var rest := Clear(b, next);
      actions := [Remove(name)] + rest;
      assert actions[1..] == rest;
    }
  }

  lemma {:induction false} WithoutShorter(passwd: seq<Account>, name: string)
    ensures |Without(passwd, name)| <= |passwd|
    ensures HasAccount(passwd, name) ==> |Without(passwd, name)| < |passwd|
  {
    if passwd != [] {
      WithoutShorter(passwd[1..], name);
    }
  }

  /** In an empty ledger a stranger can be handed any number of the band above the record. */
  lemma {:induction false} StrangerGets(b: Band, s: State, uid: int, stranger: string) returns (actions: seq<Action>)
    requires s.passwd == [] && 0 !in s.procs && uid > s.issuedMax && InBand(b, uid)
    ensures Play(b, s, actions).Some? && (uid, stranger) in Play(b, s, actions).value.held
    decreases uid - Max(b.low - 1, s.issuedMax)
  {
    var look, make := LookUp(0, stranger, {}), Create(0, false, true);
    var looked := s.(procs := s.procs[0 := Looked(stranger, None, false)]);
    var next := Max(b.low - 1, s.issuedMax) + 1;
    assert Act(b, s, look) == Some(looked);
    NextUidIsLeast([], b.low, s.issuedMax);
    assert UidMayFollow([], b.low, s.issuedMax, next);
    assert NextUid(looked.passwd, b.low, looked.issuedMax) == next;
    var made := Act(b, looked, make).value;
    assert Play(b, s, [look, make]) == Some(made) by {
      assert [make][0] == make && [make][1..] == [];
      assert Play(b, made, []) == Some(made);
      assert Play(b, looked, [make]) == Some(made);
      assert [look, make][0] == look && [look, make][1..] == [make];
    }
    if next == uid {
      actions := [look, make];
    } else {
      var rest := StrangerGets(b, made, uid, stranger);
      PlayJoin(b, s, [look, make], rest);
      actions := [look, make] + rest;
    }
  }

  /** With a record behind some managed account of the band, that account's number can reach somebody else. */
  lemma RecordBehindReissues(b: Band, passwd: seq<Account>, homes: map<string, int>, issuedMax: int, a: Account)
    returns (actions: seq<Action>)
    requires a in passwd && Managed(a, b.low) && InBand(b, a.uid) && a.uid > issuedMax
    ensures Play(b, Begin(b, passwd, homes, issuedMax), actions).Some?
    ensures !OnePersonPerNumber(Play(b, Begin(b, passwd, homes, issuedMax), actions).value.held)
  {
    var s := Begin(b, passwd, homes, issuedMax);
    var stranger := a.name + "x";
    assert |stranger| != |a.name|;
    var leave := Clear(b, s);
    var arrive := StrangerGets(b, s.(passwd := []), a.uid, stranger);
    PlayJoin(b, s, leave, arrive);
    actions := leave + arrive;
    HeldGrows(b, s, actions);
    assert (a.uid, a.name) in s.held;
  }

  /** So from a sane start numbers stay with one person for ever if and only if the record covers the accounts. */
  lemma NumbersStayExactlyWhenCovered(b: Band, passwd: seq<Account>, homes: map<string, int>, issuedMax: int)
    requires SaneStart(passwd, homes, issuedMax)
    ensures RecordCovers(b, passwd, issuedMax) <==>
              forall actions :: Play(b, Begin(b, passwd, homes, issuedMax), actions).Some? ==>
                OnePersonPerNumber(Play(b, Begin(b, passwd, homes, issuedMax), actions).value.held)
  {
    var s := Begin(b, passwd, homes, issuedMax);
    if RecordCovers(b, passwd, issuedMax) {
      forall actions | Play(b, s, actions).Some? ensures OnePersonPerNumber(Play(b, s, actions).value.held) {
        NumbersAreNeverShared(b, passwd, homes, issuedMax, actions);
      }
    } else {
      var a :| a in passwd && Managed(a, b.low) && InBand(b, a.uid) && a.uid > issuedMax;
      var actions := RecordBehindReissues(b, passwd, homes, issuedMax, a);
      assert Play(b, s, actions).Some?;
    }
  }

  /** A home is made for a number its name holds, and only where there is none: one that is there is never handed on. */
  lemma HomeIsMadeOnce(b: Band, s: State, name: string, uid: int)
    ensures var next := Act(b, s, MakeHome(name, uid));
            && (next.Some? <==> (uid, name) in s.held)
            && (next.Some? ==> next.value.homes == if name in s.homes then s.homes else s.homes[name := uid])
  {
    if name in s.homes { assert s.homes[name := s.homes[name]] == s.homes; }
  }

  /** So a home keeps its owner through any history until it is dropped. */
  lemma {:induction false} HomeKeepsItsOwner(b: Band, s: State, actions: seq<Action>, name: string)
    requires Play(b, s, actions).Some? && name in s.homes && DropHome(name) !in actions
    ensures var last := Play(b, s, actions).value; name in last.homes && last.homes[name] == s.homes[name]
    decreases |actions|
  {
    if actions != [] {
      assert actions[0] in actions && forall a :: a in actions[1..] ==> a in actions;
      HomeKeepsItsOwner(b, Act(b, s, actions[0]).value, actions[1..], name);
    }
  }
}
