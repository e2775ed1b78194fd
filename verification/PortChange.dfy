/**
 * The step that changes a running Pod's extra ports: Services of dropped ports go before their rows, rows of new
 * ports come before their Services, and what an earlier attempt left unfinished is filled in at the end.
 */
module PortChange {
  import opened Prelude
  import opened Ports

  /** Rows and Services of other Pods stand, but for rows that reconciliation was free to remove. */
  ghost predicate OthersStand(rows: seq<Row>, services: map<Name, Service>, rows': seq<Row>,
                              services': map<Name, Service>, pod: string, pastGrace: set<string>) {
    && (forall r :: r in rows' && r.pod != pod ==> r in rows)
    && (forall r :: r in rows && r.pod != pod && r.pod !in pastGrace ==> r in rows')
    && (forall n :: n in services' && services'[n].pod != pod ==> n in services && services[n] == services'[n])
    && (forall n :: n in services && services[n].pod != pod ==> n in services' && services'[n] == services[n])
  }

  /** The Pod's rows and Services on the given internal ports stand. */
  ghost predicate PortsStand(rows: seq<Row>, services: map<Name, Service>, rows': seq<Row>,
                             services': map<Name, Service>, pod: string, ports: set<int>) {
    && (forall r :: r in rows && r.pod == pod && r.internal in ports ==> r in rows')
    && (forall n :: n in services && services[n].pod == pod && services[n].internal in ports ==>
          n in services' && services'[n] == services[n])
  }

  /** Nothing but the Pod's own changeable ports has changed. */
  ghost predicate RestStands(rows: seq<Row>, services: map<Name, Service>, rows': seq<Row>,
                             services': map<Name, Service>, pod: string, keep: set<int>, pastGrace: set<string>) {
    && OthersStand(rows, services, rows', services', pod, pastGrace)
    && (pod !in pastGrace ==> PortsStand(rows, services, rows', services', pod, keep))
  }

  lemma OthersStandOn(rows0: seq<Row>, services0: map<Name, Service>, rows1: seq<Row>, services1: map<Name, Service>,
                      rows2: seq<Row>, services2: map<Name, Service>, pod: string, pastGrace: set<string>)
    requires OthersStand(rows0, services0, rows1, services1, pod, pastGrace)
    requires OthersStand(rows1, services1, rows2, services2, pod, pastGrace)
    ensures OthersStand(rows0, services0, rows2, services2, pod, pastGrace)
  {
  }

  lemma PortsStandOn(rows0: seq<Row>, services0: map<Name, Service>, rows1: seq<Row>, services1: map<Name, Service>,
                     rows2: seq<Row>, services2: map<Name, Service>, pod: string, ports: set<int>)
    requires PortsStand(rows0, services0, rows1, services1, pod, ports)
    requires PortsStand(rows1, services1, rows2, services2, pod, ports)
    ensures PortsStand(rows0, services0, rows2, services2, pod, ports)
  {
  }

  /** What stands after the drops still stands after rows were added. */
  lemma RestStandsOn(rows0: seq<Row>, services0: map<Name, Service>, rows1: seq<Row>, services1: map<Name, Service>,
                     rows2: seq<Row>, pod: string, keep: set<int>, pastGrace: set<string>)
    requires OthersStand(rows0, services0, rows1, services1, pod, pastGrace)
    requires PortsStand(rows0, services0, rows1, services1, pod, keep)
    requires OthersStand(rows1, services1, rows2, services1, pod, pastGrace)
    requires pod !in pastGrace ==> forall r :: r in rows1 && r.pod == pod ==> r in rows2
    ensures RestStands(rows0, services0, rows2, services1, pod, keep, pastGrace)
  {
    OthersStandOn(rows0, services0, rows1, services1, rows2, services1, pod, pastGrace);
  }

  /** The Services of some internal ports of a Pod. */
  function ServicesOf(services: map<Name, Service>, pod: string, ports: set<int>): set<Name> {
    set n | n in services && services[n].pod == pod && services[n].internal in ports
  }

  /** Drops ports: every Service first, then the rows in one go. */
  method DropPorts(s: Stores, pod: string, removed: set<int>, budget: nat, ghost keep: set<int>, ghost pastGrace: set<string>)
    returns (left: nat, all: bool)
    requires s.Valid() && keep !! removed
    modifies s`rows, s`services
    ensures s.Valid() && left <= budget
    ensures OthersStand(old(s.rows), old(s.services), s.rows, s.services, pod, pastGrace)
    ensures PortsStand(old(s.rows), old(s.services), s.rows, s.services, pod, keep)
    ensures forall r :: r in s.rows ==> r in old(s.rows)
    ensures all ==> forall r :: r in s.rows <==> r in old(s.rows) && !(r.pod == pod && r.internal in removed)
    ensures removed == {} ==> all && s.rows == old(s.rows) && s.services == old(s.services) && left == budget
    ensures forall n :: n in s.services ==> n in old(s.services) && s.services[n] == old(s.services)[n]
    ensures !all ==> budget <= |ServicesOf(old(s.services), pod, removed)|
    ensures all ==> budget <= left + |ServicesOf(old(s.services), pod, removed)| + 1
  {
    if removed == {} {
      return budget, true;
    }
    var names := ServicesOf(s.services, pod, removed);
    left, all := s.DeleteServices(names, budget);
    if !all || left == 0 {
      DroppedStand(s.rows, old(s.services), s.rows, s.services, pod, removed, names, keep, pastGrace);
      return 0, false;
    }
    ghost var services1 := s.services;
    s.Release(pod, removed);
    left := left - 1;
    DroppedStand(old(s.rows), old(s.services), s.rows, services1, pod, removed, names, keep, pastGrace);
  }

  /** Dropping Services and rows of some ports of a Pod leaves everything else standing. */
  lemma DroppedStand(rows: seq<Row>, services: map<Name, Service>, rows': seq<Row>, services': map<Name, Service>,
                     pod: string, removed: set<int>, names: set<Name>, keep: set<int>, pastGrace: set<string>)
    requires keep !! removed
    requires forall n :: n in names ==> n in services && services[n].pod == pod && services[n].internal in removed
    requires forall n :: n in services' ==> n in services && services'[n] == services[n]
    requires forall n :: n in services && n !in names ==> n in services'
    requires forall r :: r in rows' ==> r in rows
    requires forall r :: r in rows && !(r.pod == pod && r.internal in removed) ==> r in rows'
    ensures OthersStand(rows, services, rows', services', pod, pastGrace)
    ensures PortsStand(rows, services, rows', services', pod, keep)
  {
  }

  /** Adds rows for new ports, after a reconciliation that may or may not run. */
  method AddRows(s: Stores, user: string, pod: string, node: string, wishes: seq<Wish>, pastGrace: set<string>,
                 clusterKnown: bool, budget: nat) returns (left: nat, outcome: Outcome)
    requires s.Valid()
    requires forall i, j :: 0 <= i < j < |wishes| ==> wishes[i].internal != wishes[j].internal
    requires forall r, k :: r in s.rows && r.pod == pod && 0 <= k < |wishes| ==> r.internal != wishes[k].internal
    modifies s`rows
    ensures s.Valid() && left <= budget
    ensures outcome.Done? || outcome.Stopped? || outcome.NotEnoughPorts?
    ensures OthersStand(old(s.rows), s.services, s.rows, s.services, pod, pastGrace)
    ensures pod !in pastGrace ==> forall r :: r in old(s.rows) && r.pod == pod ==> r in s.rows
    ensures forall r :: r in s.rows && r.pod == pod && r !in old(s.rows) ==> Grants(r, user, pod, node, wishes)
    ensures outcome.Done? ==> forall k :: 0 <= k < |wishes| ==> HasPort(s.rows, pod, wishes[k].internal)
    ensures wishes == [] ==> outcome.Done? && s.rows == old(s.rows) && left == budget
    ensures outcome.Stopped? ==> budget < 2
    ensures outcome.Done? ==> budget <= left + 2
    ensures outcome.NotEnoughPorts? ==>
              FreeFrom(old(s.rows), s.services, s.foreign, clusterKnown, NODEPORT_MIN) < |wishes|
    ensures clusterKnown ==> forall r :: r in s.rows && r !in old(s.rows) ==> r.external !in InUse(s.services) + s.foreign
  {
    if wishes == [] {
      return budget, Done;
    }
    left := budget;
    if left == 0 {
      return 0, Stopped;
    }
    s.Reconcile(pastGrace);
    left := left - 1;
    if left == 0 {
      return 0, Stopped;
    }
    ghost var before := s.rows;
    var ok := s.AllocateNodeports(user, pod, node, wishes, clusterKnown);
    left := left - 1;
    if !ok {
      assert s.rows == before;
      DroppingFrees(old(s.rows), s.services, before, s.services, s.foreign, clusterKnown);
      return left, NotEnoughPorts;
    }
    ghost var free := FreePorts(Used(before, s.services, s.foreign, clusterKnown), NODEPORT_MIN);
    AppendedRows(before, Assigned(user, pod, node, wishes, free), user, pod, node, wishes, free);
    AppendedFree(before, user, pod, node, wishes, free);
    return left, Done;
  }

  /** The row grants one of the wishes, on a port of the range. */
  predicate Grants(r: Row, user: string, pod: string, node: string, wishes: seq<Wish>) {
    && NODEPORT_MIN <= r.external <= NODEPORT_MAX
    && exists k :: 0 <= k < |wishes| && r == Row(user, pod, node, wishes[k].internal, r.external, wishes[k].purpose)
  }

  /** Every new row is the caller's, for a wanted port with its purpose, on a port of the range. */
  ghost predicate NewRowsFit(rows: seq<Row>, rows': seq<Row>, user: string, pod: string, node: string, wanted: map<int, string>) {
    forall r :: r in rows' && r !in rows ==>
      && NODEPORT_MIN <= r.external <= NODEPORT_MAX
      && r.internal in wanted && r == Row(user, pod, node, r.internal, r.external, wanted[r.internal])
  }

  predicate HasPort(rows: seq<Row>, pod: string, port: int) {
    exists r :: r in rows && r.pod == pod && r.internal == port
  }

  lemma AppendedRows(rows: seq<Row>, more: seq<Row>, user: string, pod: string, node: string, wishes: seq<Wish>, free: seq<int>)
    requires |wishes| <= |free| && more == Assigned(user, pod, node, wishes, free)
    requires forall p :: p in free ==> NODEPORT_MIN <= p <= NODEPORT_MAX
    ensures forall r :: r in rows ==> r in rows + more
    ensures forall r :: r in rows + more && r !in rows ==> r.pod == pod && Grants(r, user, pod, node, wishes)
    ensures forall k :: 0 <= k < |wishes| ==> HasPort(rows + more, pod, wishes[k].internal)
  {
    forall k | 0 <= k < |wishes| ensures HasPort(rows + more, pod, wishes[k].internal) {
      assert more[k] in rows + more;
    }
    forall r | r in rows + more && r !in rows ensures r.pod == pod && Grants(r, user, pod, node, wishes) {
      var k :| 0 <= k < |more| && more[k] == r;
      assert free[k] in free;
    }
  }

  lemma AppendedFree(rows: seq<Row>, user: string, pod: string, node: string, wishes: seq<Wish>, free: seq<int>)
    requires |wishes| <= |free|
    ensures forall r :: r in rows + Assigned(user, pod, node, wishes, free) && r !in rows ==> r.external in free
  {
    var more := Assigned(user, pod, node, wishes, free);
    forall r | r in rows + more && r !in rows ensures r.external in free {
      var k :| 0 <= k < |more| && more[k] == r;
    }
  }

  /** The Pod's wanted ports that had no Service when the step listed them. */
  function Unserved(rows: seq<Row>, pod: string, wanted: set<int>, had: set<int>): (r: seq<Row>)
    ensures (forall x :: x in rows && x.pod == pod && x.internal in wanted ==> x.internal in had) ==> r == []
    ensures forall x :: x in r <==> x in rows && x.pod == pod && x.internal in wanted && x.internal !in had
  {
    if rows == [] then []
    else
      var rest := Unserved(rows[1..], pod, wanted, had);
      assert forall x :: x in rows <==> x == rows[0] || x in rows[1..];
      if rows[0].pod == pod && rows[0].internal in wanted && rows[0].internal !in had then [rows[0]] + rest else rest
  }

  /** They are no more than are wanted. */
  lemma {:induction false} UnservedAreFew(rows: seq<Row>, pod: string, wanted: set<int>, had: set<int>)
    requires UniquePorts(rows)
    ensures |Unserved(rows, pod, wanted, had)| <= |wanted|
  {
    if rows != [] {
      var first := rows[0];
      if first.pod == pod && first.internal in wanted && first.internal !in had {
        UnservedAreFew(rows[1..], pod, wanted - {first.internal}, had);
        UnservedWithout(rows[1..], pod, wanted, had, first.internal);
      } else {
        UnservedAreFew(rows[1..], pod, wanted, had);
      }
    }
  }

  /** They are on different ports. */
  lemma {:induction false} UnservedDiffer(rows: seq<Row>, pod: string, wanted: set<int>, had: set<int>)
    requires UniquePorts(rows)
    ensures OnDifferentPorts(Unserved(rows, pod, wanted, had))
  {
    if rows != [] {
      var rest := Unserved(rows[1..], pod, wanted, had);
      UnservedDiffer(rows[1..], pod, wanted, had);
      forall r | r in rest ensures r.external != rows[0].external { assert r in rows[1..]; }
      OneMorePort(rows[0], rest);
    }
  }

  lemma OneMorePort(first: Row, rest: seq<Row>)
    requires OnDifferentPorts(rest) && forall r :: r in rest ==> r.external != first.external
    ensures OnDifferentPorts([first] + rest)
  {
  }

  lemma {:induction false} UnservedWithout(rows: seq<Row>, pod: string, wanted: set<int>, had: set<int>, port: int)
    requires forall r :: r in rows && r.pod == pod ==> r.internal != port
    ensures Unserved(rows, pod, wanted - {port}, had) == Unserved(rows, pod, wanted, had)
  {
    if rows != [] {
      assert rows[0] in rows && forall r :: r in rows[1..] ==> r in rows;
      UnservedWithout(rows[1..], pod, wanted, had, port);
    }
  }

  /** A port whose Service stands is served on its one row. */
  lemma ServiceServesItsRow(rows: seq<Row>, services: map<Name, Service>, r: Row, n: Name)
    requires Aligned(rows, services) && UniquePorts(rows) && r in rows
    requires n in services && services[n].pod == r.pod && services[n].internal == r.internal
    ensures Served(services, r)
  {
  }

  /** The wanted ports that are new, in increasing order. */
  method WishesFor(added: set<int>, wanted: map<int, string>) returns (wishes: seq<Wish>)
    requires added <= wanted.Keys
    ensures forall i, j :: 0 <= i < j < |wishes| ==> wishes[i].internal < wishes[j].internal
    ensures forall k :: 0 <= k < |wishes| ==> wishes[k].internal in added && wishes[k].purpose == wanted[wishes[k].internal]
    ensures forall p :: p in added ==> exists k :: 0 <= k < |wishes| && wishes[k].internal == p
    ensures added == {} ==> wishes == []
    ensures |wishes| == |added|
  {
    var order := Sorted(added);
    forall k | 0 <= k < |order| ensures order[k] in added { assert order[k] in order; }
    assert |order| > 0 ==> order[0] in order;
    wishes := seq(|order|, k requires 0 <= k < |order| => Wish(order[k], wanted[order[k]]));
    forall p | p in added ensures exists k :: 0 <= k < |wishes| && wishes[k].internal == p {
      assert p in order;
      var k :| 0 <= k < |order| && order[k] == p;
      assert wishes[k].internal == p;
    }
  }

  /** There is a free port for every wanted one that is new. */
  ghost predicate EnoughPorts(rows: seq<Row>, services: map<Name, Service>, foreign: set<int>, clusterKnown: bool,
                              pod: string, wanted: map<int, string>) {
    |wanted.Keys - Extra(rows, pod)| <= FreeFrom(rows, services, foreign, clusterKnown, NODEPORT_MIN)
  }

  /** No Service holds the port of a wanted row that has none of its own. */
  ghost predicate NoneInTheWay(rows: seq<Row>, services: map<Name, Service>, foreign: set<int>, pod: string,
                               wanted: map<int, string>) {
    forall r :: r in rows && r.pod == pod && r.internal in wanted && r.internal !in PortsServed(services, pod) ==>
      r.external !in InUse(services) + foreign
  }

  /** The port of a wanted row is held by a Service, of this Pod's or of somebody else's. */
  ghost predicate SomePortHeld(rows: seq<Row>, services: map<Name, Service>, foreign: set<int>, pod: string,
                               wanted: map<int, string>) {
    exists r :: r in rows && r.pod == pod && r.internal in wanted && r.external in InUse(services) + foreign
  }

  /** Writes enough for everything: the Services that go, their rows, two for the new rows, the Services that come. */
  function Calls(rows: seq<Row>, services: map<Name, Service>, pod: string, wanted: map<int, string>): nat {
    |ServicesOf(services, pod, Extra(rows, pod) - wanted.Keys)| + 3 + |wanted.Keys|
  }

  /** With fewer rows and Services no fewer ports are free. */
  lemma DroppingFrees(rows: seq<Row>, services: map<Name, Service>, rows': seq<Row>, services': map<Name, Service>,
                      foreign: set<int>, clusterKnown: bool)
    requires forall r :: r in rows' ==> r in rows
    requires forall n :: n in services' ==> n in services && services'[n] == services[n]
    ensures FreeFrom(rows, services, foreign, clusterKnown, NODEPORT_MIN)
            <= FreeFrom(rows', services', foreign, clusterKnown, NODEPORT_MIN)
  {
    var used, used' := Used(rows, services, foreign, clusterKnown), Used(rows', services', foreign, clusterKnown);
    assert used' <= used;
    FreePortsGrow(used, used', NODEPORT_MIN);
    FreePortsCount(rows, services, foreign, clusterKnown, NODEPORT_MIN);
    FreePortsCount(rows', services', foreign, clusterKnown, NODEPORT_MIN);
  }

  /** Brings the rows to the wanted list: drops first, then additions. */
  method DropThenAdd(s: Stores, user: string, pod: string, node: string, wanted: map<int, string>,
                     pastGrace: set<string>, clusterKnown: bool, budget: nat) returns (left: nat, outcome: Outcome)
    requires s.Valid() && wanted.Keys !! PROTECTED_PORTS
    modifies s`rows, s`services
    ensures s.Valid()
    ensures outcome.Done? || outcome.Stopped? || outcome.NotEnoughPorts?
    ensures RestStands(old(s.rows), old(s.services), s.rows, s.services, pod, PROTECTED_PORTS + wanted.Keys, pastGrace)
    ensures NewRowsFit(old(s.rows), s.rows, user, pod, node, wanted)
    ensures outcome.Done? && pod !in pastGrace ==> Extra(s.rows, pod) == wanted.Keys
    ensures Extra(old(s.rows), pod) == wanted.Keys ==>
              outcome.Done? && s.rows == old(s.rows) && s.services == old(s.services)
    ensures forall n :: n in s.services ==> n in old(s.services) && s.services[n] == old(s.services)[n]
    ensures outcome.Stopped? ==> budget <= |ServicesOf(old(s.services), pod, Extra(old(s.rows), pod) - wanted.Keys)| + 2
    ensures outcome.Done? ==> budget <= left + |ServicesOf(old(s.services), pod, Extra(old(s.rows), pod) - wanted.Keys)| + 3
    ensures outcome.NotEnoughPorts? ==> !EnoughPorts(old(s.rows), old(s.services), s.foreign, clusterKnown, pod, wanted)
    ensures clusterKnown ==> forall r :: r in s.rows && r !in old(s.rows) ==> r.external !in InUse(s.services) + s.foreign
  {
    var extra := Extra(s.rows, pod);
    var removed, added := extra - wanted.Keys, wanted.Keys - extra;
    ghost var rows0, services0 := s.rows, s.services;
    var all: bool;
    left, all := DropPorts(s, pod, removed, budget, PROTECTED_PORTS + wanted.Keys, pastGrace);
    if !all {
      return left, Stopped;
    }
    ghost var rows1, services1 := s.rows, s.services;
    var wishes := WishesFor(added, wanted);
    forall r, k | r in s.rows && r.pod == pod && 0 <= k < |wishes| ensures r.internal != wishes[k].internal {
      NotYetThere(rows0, pod, r, wishes[k].internal);
    }
    left, outcome := AddRows(s, user, pod, node, wishes, pastGrace, clusterKnown, left);
    if outcome.NotEnoughPorts? {
      DroppingFrees(rows0, services0, rows1, services1, s.foreign, clusterKnown);
    }
    RestStandsOn(rows0, services0, rows1, services1, s.rows, pod, PROTECTED_PORTS + wanted.Keys, pastGrace);
    NewRowsAreWanted(rows0, rows1, s.rows, user, pod, node, wanted, wishes);
    if outcome.Done? && pod !in pastGrace {
      ExtraIsWanted(rows0, rows1, s.rows, user, pod, node, wanted, wishes);
    }
  }

  /** New Services for the Pod's own rows leave everything standing. */
  lemma CreatedStand(rows: seq<Row>, services: map<Name, Service>, services': map<Name, Service>, wanted: seq<Row>,
                     pod: string, pastGrace: set<string>, ports: set<int>)
    requires forall r :: r in wanted ==> r.pod == pod
    requires forall n :: n in services ==> n in services' && services'[n] == services[n]
    requires forall n :: n in services' && n !in services ==>
               exists r :: r in wanted && services'[n] == Service(r.pod, r.internal, r.external)
    ensures OthersStand(rows, services, rows, services', pod, pastGrace)
    ensures PortsStand(rows, services, rows, services', pod, ports)
  {
  }

  lemma ServedStand(rows: seq<Row>, services: map<Name, Service>, rows': seq<Row>, services': map<Name, Service>,
                    pod: string, ports: set<int>, some: set<int>)
    requires PortsStand(rows, services, rows', services', pod, ports)
    requires some <= ports && some <= PortsServed(services, pod)
    ensures some <= PortsServed(services', pod)
  {
  }

  /** Creates the Services that were missing when the step, in the state given first, listed them. */
  method FillIn(s: Stores, pod: string, wanted: map<int, string>, had: set<int>, budget: nat,
                ghost rows0: seq<Row>, ghost services0: map<Name, Service>, ghost keep: set<int>, ghost pastGrace: set<string>)
    returns (outcome: Outcome)
    requires s.Valid() && had == PortsServed(services0, pod) && wanted.Keys <= keep
    requires RestStands(rows0, services0, s.rows, s.services, pod, keep, pastGrace)
    modifies s`services, s`nextName
    ensures s.Valid()
    ensures outcome.Done? || outcome.Stopped? || outcome.PortTaken?
    ensures RestStands(rows0, services0, s.rows, s.services, pod, keep, pastGrace)
    ensures outcome.Done? && pod !in pastGrace ==> AllServed(s.rows, s.services, pod, wanted.Keys)
    ensures Unserved(s.rows, pod, wanted.Keys, had) == [] ==> outcome.Done? && s.services == old(s.services)
    ensures outcome.Stopped? ==> budget < |wanted.Keys|
    ensures outcome.PortTaken? ==> SomePortHeld(s.rows, s.services, s.foreign, pod, wanted)
    ensures (forall r :: r in Unserved(s.rows, pod, wanted.Keys, had) ==> r.external !in InUse(old(s.services)) + s.foreign) ==>
              !outcome.PortTaken?
  {
    ghost var before := s.services;
    var missing := Unserved(s.rows, pod, wanted.Keys, had);
    UnservedAreFew(s.rows, pod, wanted.Keys, had);
    UnservedDiffer(s.rows, pod, wanted.Keys, had);
    outcome := s.CreateServices(missing, budget);
    CreatedStand(s.rows, before, s.services, missing, pod, pastGrace, keep);
    OthersStandOn(rows0, services0, s.rows, before, s.rows, s.services, pod, pastGrace);
    if pod !in pastGrace {
      ServedStand(rows0, services0, s.rows, before, pod, keep, wanted.Keys * had);
      PortsStandOn(rows0, services0, s.rows, before, s.rows, s.services, pod, keep);
      if outcome.Done? {
        WantedAreServed(s.rows, before, s.services, pod, wanted, had, missing);
      }
    }
  }

  /** Everything after the checks: the rows, then a Service for every wanted port that had none. */
  method Rearrange(s: Stores, user: string, pod: string, node: string, wanted: map<int, string>,
                   pastGrace: set<string>, clusterKnown: bool, budget: nat) returns (outcome: Outcome)
    requires s.Valid() && wanted.Keys !! PROTECTED_PORTS
    modifies s`rows, s`services, s`nextName
    ensures s.Valid()
    ensures outcome.Done? || outcome.Stopped? || outcome.NotEnoughPorts? || outcome.PortTaken?
    ensures outcome.Stopped? ==> budget < Calls(old(s.rows), old(s.services), pod, wanted)
    ensures outcome.NotEnoughPorts? ==> !EnoughPorts(old(s.rows), old(s.services), s.foreign, clusterKnown, pod, wanted)
    ensures clusterKnown && NoneInTheWay(old(s.rows), old(s.services), s.foreign, pod, wanted) ==> !outcome.PortTaken?
    ensures outcome.PortTaken? ==> SomePortHeld(s.rows, s.services, s.foreign, pod, wanted)
    ensures RestStands(old(s.rows), old(s.services), s.rows, s.services, pod, PROTECTED_PORTS + wanted.Keys, pastGrace)
    ensures NewRowsFit(old(s.rows), s.rows, user, pod, node, wanted)
    ensures outcome.Done? && pod !in pastGrace ==> Matches(s.rows, s.services, pod, wanted)
    ensures Matches(old(s.rows), old(s.services), pod, wanted) ==>
              outcome.Done? && s.rows == old(s.rows) && s.services == old(s.services)
  {
    var had := PortsServed(s.services, pod);
    ghost var rows0, services0 := s.rows, s.services;
    var left: nat;
    left, outcome := DropThenAdd(s, user, pod, node, wanted, pastGrace, clusterKnown, budget);
    if !outcome.Done? {
      return;
    }
    NothingToDo(rows0, services0, pod, wanted, had);
    MissingAreFree(rows0, services0, s.rows, s.services, s.foreign, clusterKnown, pod, wanted);
    outcome := FillIn(s, pod, wanted, had, left, rows0, services0, PROTECTED_PORTS + wanted.Keys, pastGrace);
  }

  /** Old rows have nobody in their way, and new ones were put where nobody is. */
  lemma MissingAreFree(rows0: seq<Row>, services0: map<Name, Service>, rows: seq<Row>, services: map<Name, Service>,
                       foreign: set<int>, clusterKnown: bool, pod: string, wanted: map<int, string>)
    requires forall n :: n in services ==> n in services0 && services[n] == services0[n]
    requires clusterKnown ==> forall r :: r in rows && r !in rows0 ==> r.external !in InUse(services) + foreign
    ensures clusterKnown && NoneInTheWay(rows0, services0, foreign, pod, wanted) ==>
              forall r :: r in Unserved(rows, pod, wanted.Keys, PortsServed(services0, pod)) ==>
                r.external !in InUse(services) + foreign
  {
    assert InUse(services) <= InUse(services0);
  }

  /** The internal ports of a Pod that some Service serves. */
  function PortsServed(services: map<Name, Service>, pod: string): set<int> {
    set n | n in services && services[n].pod == pod :: services[n].internal
  }

  lemma WantedAreServed(rows: seq<Row>, services0: map<Name, Service>, services: map<Name, Service>, pod: string,
                        wanted: map<int, string>, had: set<int>, missing: seq<Row>)
    requires Aligned(rows, services) && UniquePorts(rows)
    requires wanted.Keys * had <= PortsServed(services0, pod) && missing == Unserved(rows, pod, wanted.Keys, had)
    requires forall n :: n in services0 ==> n in services && services[n] == services0[n]
    requires forall r :: r in missing ==> Served(services, r)
    ensures AllServed(rows, services, pod, wanted.Keys)
  {
    forall r | r in rows && r.pod == pod && r.internal in wanted ensures Served(services, r) {
      if r.internal in had {
        assert r.internal in wanted.Keys * had;
        var n :| n in services0 && services0[n].pod == pod && services0[n].internal == r.internal;
        ServiceServesItsRow(rows, services, r, n);
      } else {
        assert r in missing;
      }
    }
  }

  /**
   * Brings the Pod's extra ports to the wanted list. However the step ends, including after any `budget` of
   * writes, every live Service has its row and no external port is given twice; other Pods, protected ports and
   * ports that stay are untouched; where it succeeds the Pod has what was wanted, and a further run changes
   * nothing. It fails to get there only for want of calls, of free ports, or because another Service holds the port
   * of one of its rows. A Pod past its grace whose every Service is gone may lose its rows to reconciliation;
   * `pod !in pastGrace` rules that out.
   */
  method ChangePorts(s: Stores, user: string, pod: string, node: string, podLives: bool, wanted: map<int, string>,
                     pastGrace: set<string>, clusterKnown: bool, budget: nat) returns (outcome: Outcome)
    requires s.Valid() && wanted.Keys !! PROTECTED_PORTS
    modifies s`rows, s`services, s`nextName
    ensures s.Valid()
    ensures outcome.PodNotFound? <==> !podLives
    ensures outcome.NoAllocation? <==> podLives && RowsOf(old(s.rows), pod) == []
    ensures outcome.OwnerMismatch? <==> podLives && exists r :: r in RowsOf(old(s.rows), pod) && r.user != user
    ensures outcome.PodNotFound? || outcome.NoAllocation? || outcome.OwnerMismatch? ==>
              s.rows == old(s.rows) && s.services == old(s.services)
    ensures RestStands(old(s.rows), old(s.services), s.rows, s.services, pod, PROTECTED_PORTS + wanted.Keys, pastGrace)
    ensures NewRowsFit(old(s.rows), s.rows, user, pod, node, wanted)
    ensures outcome.Done? && pod !in pastGrace ==> Matches(s.rows, s.services, pod, wanted)
    ensures Matches(old(s.rows), old(s.services), pod, wanted) ==>
              && s.rows == old(s.rows) && s.services == old(s.services)
              && (podLives && Owned(old(s.rows), pod, user) ==> outcome.Done?)
    ensures podLives && Owned(old(s.rows), pod, user)
            && Calls(old(s.rows), old(s.services), pod, wanted) <= budget
            && EnoughPorts(old(s.rows), old(s.services), s.foreign, clusterKnown, pod, wanted)
            && clusterKnown && NoneInTheWay(old(s.rows), old(s.services), s.foreign, pod, wanted)
            ==> outcome.Done?
    ensures outcome.PortTaken? ==> SomePortHeld(s.rows, s.services, s.foreign, pod, wanted)
  {
    if !podLives {
      return PodNotFound;
    }
    var rows := RowsOf(s.rows, pod);
    if rows == [] {
      return NoAllocation;
    }
    if exists r :: r in rows && r.user != user {
      return OwnerMismatch;
    }
    outcome := Rearrange(s, user, pod, node, wanted, pastGrace, clusterKnown, budget);
  }

  predicate Owned(rows: seq<Row>, pod: string, user: string) {
    RowsOf(rows, pod) != [] && forall r :: r in RowsOf(rows, pod) ==> r.user == user
  }

  lemma NotYetThere(rows: seq<Row>, pod: string, r: Row, port: int)
    requires r in rows && r.pod == pod && port !in Extra(rows, pod) && port !in PROTECTED_PORTS
    ensures r.internal != port
  {
  }

  lemma NothingToDo(rows: seq<Row>, services: map<Name, Service>, pod: string, wanted: map<int, string>, had: set<int>)
    requires had == PortsServed(services, pod)
    ensures Matches(rows, services, pod, wanted) ==> Unserved(rows, pod, wanted.Keys, had) == []
  {
  }

  /** What was there, less what was dropped, plus what was added, is what was wanted. */
  lemma NewRowsAreWanted(rows0: seq<Row>, rows1: seq<Row>, rows2: seq<Row>, user: string, pod: string, node: string,
                         wanted: map<int, string>, wishes: seq<Wish>)
    requires forall r :: r in rows1 ==> r in rows0
    requires forall r :: r in rows2 && r.pod != pod ==> r in rows1
    requires forall r :: r in rows2 && r.pod == pod && r !in rows1 ==> Grants(r, user, pod, node, wishes)
    requires forall k :: 0 <= k < |wishes| ==> wishes[k].internal in wanted && wishes[k].purpose == wanted[wishes[k].internal]
    ensures NewRowsFit(rows0, rows2, user, pod, node, wanted)
  {
  }

  lemma ExtraIsWanted(rows0: seq<Row>, rows1: seq<Row>, rows2: seq<Row>, user: string, pod: string, node: string,
                      wanted: map<int, string>, wishes: seq<Wish>)
    requires wanted.Keys !! PROTECTED_PORTS
    requires forall p :: p in wanted.Keys - Extra(rows0, pod) ==> exists k :: 0 <= k < |wishes| && wishes[k].internal == p
    requires forall k :: 0 <= k < |wishes| ==> wishes[k].internal in wanted && HasPort(rows2, pod, wishes[k].internal)
    requires forall r :: r in rows1 <==> r in rows0 && !(r.pod == pod && r.internal in Extra(rows0, pod) - wanted.Keys)
    requires forall r :: r in rows1 && r.pod == pod ==> r in rows2
    requires forall r :: r in rows2 && r.pod == pod && r !in rows1 ==> Grants(r, user, pod, node, wishes)
    ensures Extra(rows2, pod) == wanted.Keys
  {
    forall p ensures p in Extra(rows2, pod) <==> p in wanted.Keys {
      if p in wanted.Keys {
        if p in Extra(rows0, pod) {
          var r :| r in rows0 && r.pod == pod && r.internal !in PROTECTED_PORTS && r.internal == p;
          assert r in rows2;
        } else {
          assert p in wanted.Keys - Extra(rows0, pod);
          var k :| 0 <= k < |wishes| && wishes[k].internal == p;
          assert HasPort(rows2, pod, wishes[k].internal);
        }
      }
    }
  }
}
