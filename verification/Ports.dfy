/**
 * External ports: the table of allocations, the Services of the cluster, and the step that brings a running Pod's
 * extra ports to a wanted list. The step may stop after any write; run again, it goes on from what it finds.
 */
module Ports {
  import opened Prelude

  datatype Row = Row(user: string, pod: string, node: string, internal: int, external: int, purpose: string)

  datatype Service = Service(pod: string, internal: int, external: int)

  type Name = nat

  const PROTECTED_PORTS: set<int> := {22, 8888, 6080}
  const NODEPORT_MIN: int := 30000
  const NODEPORT_MAX: int := 32767

  // ---------- what the stores promise each other ----------

  ghost predicate Backs(r: Row, s: Service) {
    r.pod == s.pod && r.internal == s.internal && r.external == s.external
  }

  /** Every live Service has its row, so its port cannot be given to anybody else. */
  ghost predicate Aligned(rows: seq<Row>, services: map<Name, Service>) {
    forall n :: n in services ==> exists r :: r in rows && Backs(r, services[n])
  }

  /** External ports are unique in the whole table, internal ports within a Pod. */
  ghost predicate UniquePorts(rows: seq<Row>) {
    forall i, j :: 0 <= i < j < |rows| ==>
      rows[i].external != rows[j].external && !(rows[i].pod == rows[j].pod && rows[i].internal == rows[j].internal)
  }

  /** The cluster never lets two Services hold one external port. */
  ghost predicate OnePortEach(services: map<Name, Service>) {
    forall m, n :: m in services && n in services && services[m].external == services[n].external ==> m == n
  }

  function RowsOf(rows: seq<Row>, pod: string): (r: seq<Row>)
    ensures forall x :: x in r <==> x in rows && x.pod == pod
  {
    if rows == [] then []
    else
      var rest := RowsOf(rows[1..], pod);
      assert forall x :: x in rows <==> x == rows[0] || x in rows[1..];
      if rows[0].pod == pod then [rows[0]] + rest else rest
  }

  /** The rows of these Pods, of the given internal ports only if any are given. */
  predicate Meant(r: Row, pods: set<string>, ports: Option<set<int>>) {
    r.pod in pods && (ports.Some? ==> r.internal in ports.value)
  }

  /** The rows that remain when those are deleted. */
  function Keep(rows: seq<Row>, pods: set<string>, ports: Option<set<int>>): (r: seq<Row>)
    ensures forall x :: x in r <==> x in rows && !Meant(x, pods, ports)
  {
    if rows == [] then []
    else
      var rest := Keep(rows[1..], pods, ports);
      assert forall x :: x in rows <==> x == rows[0] || x in rows[1..];
      if Meant(rows[0], pods, ports) then rest else [rows[0]] + rest
  }

  lemma {:induction false} KeepKeepsUnique(rows: seq<Row>, pods: set<string>, ports: Option<set<int>>)
    requires UniquePorts(rows)
    ensures UniquePorts(Keep(rows, pods, ports))
  {
    if rows != [] {
      KeepKeepsUnique(rows[1..], pods, ports);
      var rest := Keep(rows[1..], pods, ports);
      forall j | 0 <= j < |rest|
        ensures rest[j].external != rows[0].external && !(rest[j].pod == rows[0].pod && rest[j].internal == rows[0].internal)
      {
        assert rest[j] in rows[1..];
      }
    }
  }

  function Externals(rows: seq<Row>): set<int> {
    set r | r in rows :: r.external
  }

  function InUse(services: map<Name, Service>): set<int> {
    set n | n in services :: services[n].external
  }

  /** Ports taken in the table and, if the cluster could be asked, those any Service holds. */
  function Used(rows: seq<Row>, services: map<Name, Service>, foreign: set<int>, clusterKnown: bool): set<int> {
    Externals(rows) + (if clusterKnown then InUse(services) + foreign else {})
  }

  /** The internal ports of a Pod that this step may change. */
  function Extra(rows: seq<Row>, pod: string): set<int> {
    set r | r in rows && r.pod == pod && r.internal !in PROTECTED_PORTS :: r.internal
  }

  ghost predicate Served(services: map<Name, Service>, r: Row) {
    exists n :: n in services && Backs(r, services[n])
  }

  ghost predicate AllServed(rows: seq<Row>, services: map<Name, Service>, pod: string, ports: set<int>) {
    forall r :: r in rows && r.pod == pod && r.internal in ports ==> Served(services, r)
  }

  /** The Pod has exactly the wanted extra ports, and each has a Service on the row's port. */
  ghost predicate Matches(rows: seq<Row>, services: map<Name, Service>, pod: string, wanted: map<int, string>) {
    Extra(rows, pod) == wanted.Keys && AllServed(rows, services, pod, wanted.Keys)
  }

  // ---------- choosing ports ----------

  /** The free ports from `from` on, in order. */
  function FreePorts(used: set<int>, from: int): (r: seq<int>)
    ensures forall p :: p in r <==> from <= p <= NODEPORT_MAX && p !in used
    ensures forall i, j :: 0 <= i < j < |r| ==> r[i] < r[j]
    decreases NODEPORT_MAX + 1 - from
  {
    if from > NODEPORT_MAX then []
    else if from in used then FreePorts(used, from + 1)
    else
      var rest := FreePorts(used, from + 1);
      assert forall j :: 0 <= j < |rest| ==> rest[j] in rest;
      [from] + rest
  }

  /** The fewer ports are used, the more are free. */
  lemma {:induction false} FreePortsGrow(used: set<int>, fewer: set<int>, from: int)
    requires fewer <= used
    ensures |FreePorts(used, from)| <= |FreePorts(fewer, from)|
    decreases NODEPORT_MAX + 1 - from
  {
    if from <= NODEPORT_MAX { FreePortsGrow(used, fewer, from + 1); }
  }

  /** The port is free: no row has it, and no Service that the step can see. */
  ghost predicate IsFree(rows: seq<Row>, services: map<Name, Service>, foreign: set<int>, clusterKnown: bool, p: int) {
    && NODEPORT_MIN <= p <= NODEPORT_MAX && (forall r :: r in rows ==> r.external != p)
    && (clusterKnown ==> p !in foreign && forall n :: n in services ==> services[n].external != p)
  }

  /** How many ports from `from` on are free. */
  ghost function FreeFrom(rows: seq<Row>, services: map<Name, Service>, foreign: set<int>, clusterKnown: bool, from: int): nat
    decreases NODEPORT_MAX + 1 - from
  {
    if from > NODEPORT_MAX then 0
    else (if IsFree(rows, services, foreign, clusterKnown, from) then 1 else 0)
         + FreeFrom(rows, services, foreign, clusterKnown, from + 1)
  }

  lemma UsedUnlessFree(rows: seq<Row>, services: map<Name, Service>, foreign: set<int>, clusterKnown: bool, p: int)
    requires NODEPORT_MIN <= p <= NODEPORT_MAX
    ensures p in Used(rows, services, foreign, clusterKnown) <==> !IsFree(rows, services, foreign, clusterKnown, p)
  {
  }

  lemma {:induction false} FreePortsCount(rows: seq<Row>, services: map<Name, Service>, foreign: set<int>, clusterKnown: bool,
                                          from: int)
    requires NODEPORT_MIN <= from
    ensures |FreePorts(Used(rows, services, foreign, clusterKnown), from)|
            == FreeFrom(rows, services, foreign, clusterKnown, from)
    decreases NODEPORT_MAX + 1 - from
  {
    if from <= NODEPORT_MAX {
      UsedUnlessFree(rows, services, foreign, clusterKnown, from);
      FreePortsCount(rows, services, foreign, clusterKnown, from + 1);
    }
  }

  /** Each new row has a free port, for the wish of its place, and every lower free port went to an earlier one. */
  ghost predicate LowestFree(before: seq<Row>, added: seq<Row>, user: string, pod: string, node: string, wishes: seq<Wish>,
                             services: map<Name, Service>, foreign: set<int>, clusterKnown: bool) {
    && |added| == |wishes|
    && (forall k :: 0 <= k < |added| ==>
          && added[k] == Row(user, pod, node, wishes[k].internal, added[k].external, wishes[k].purpose)
          && IsFree(before, services, foreign, clusterKnown, added[k].external))
    && (forall i, k :: 0 <= i < k < |added| ==> added[i].external < added[k].external)
    && (forall k, p :: 0 <= k < |added| && IsFree(before, services, foreign, clusterKnown, p) && p < added[k].external ==>
          exists i :: 0 <= i < k && added[i].external == p)
  }

  lemma AssignedAreLowest(rows: seq<Row>, user: string, pod: string, node: string, wishes: seq<Wish>,
                          services: map<Name, Service>, foreign: set<int>, clusterKnown: bool)
    requires |wishes| <= |FreePorts(Used(rows, services, foreign, clusterKnown), NODEPORT_MIN)|
    ensures var free := FreePorts(Used(rows, services, foreign, clusterKnown), NODEPORT_MIN);
            LowestFree(rows, Assigned(user, pod, node, wishes, free), user, pod, node, wishes, services, foreign, clusterKnown)
  {
    var free := FreePorts(Used(rows, services, foreign, clusterKnown), NODEPORT_MIN);
    var added := Assigned(user, pod, node, wishes, free);
    FreePortsAreFree(rows, services, foreign, clusterKnown);
    forall k, p | 0 <= k < |added| && IsFree(rows, services, foreign, clusterKnown, p) && p < added[k].external
      ensures exists i :: 0 <= i < k && added[i].external == p
    {
      var i := EarlierPort(free, k, p);
      assert added[i].external == p;
    }
  }

  lemma FreePortsAreFree(rows: seq<Row>, services: map<Name, Service>, foreign: set<int>, clusterKnown: bool)
    ensures forall p :: p in FreePorts(Used(rows, services, foreign, clusterKnown), NODEPORT_MIN) <==>
                          IsFree(rows, services, foreign, clusterKnown, p)
  {
    forall p | NODEPORT_MIN <= p <= NODEPORT_MAX
      ensures p in Used(rows, services, foreign, clusterKnown) <==> !IsFree(rows, services, foreign, clusterKnown, p)
    {
      UsedUnlessFree(rows, services, foreign, clusterKnown, p);
    }
  }

  lemma EarlierPort(free: seq<int>, k: nat, p: int) returns (i: nat)
    requires k < |free| && p in free && p < free[k] && forall i, j :: 0 <= i < j < |free| ==> free[i] < free[j]
    ensures i < k && free[i] == p
  {
    i :| i < |free| && free[i] == p;
  }

  datatype Wish = Wish(internal: int, purpose: string)

  function Assigned(user: string, pod: string, node: string, wishes: seq<Wish>, free: seq<int>): (r: seq<Row>)
    requires |wishes| <= |free|
    ensures |r| == |wishes|
    ensures forall k :: 0 <= k < |r| ==> r[k] == Row(user, pod, node, wishes[k].internal, free[k], wishes[k].purpose)
  {
    seq(|wishes|, k requires 0 <= k < |wishes| => Row(user, pod, node, wishes[k].internal, free[k], wishes[k].purpose))
  }

  /** New rows on free ports, for internal ports the Pod does not have, keep the table free of duplicates. */
  lemma AssignedKeepsUnique(rows: seq<Row>, user: string, pod: string, node: string, wishes: seq<Wish>, free: seq<int>)
    requires UniquePorts(rows) && |wishes| <= |free|
    requires forall p :: p in free ==> p !in Externals(rows)
    requires forall i, j :: 0 <= i < j < |free| ==> free[i] < free[j]
    requires forall i, j :: 0 <= i < j < |wishes| ==> wishes[i].internal != wishes[j].internal
    requires forall r, k :: r in rows && r.pod == pod && 0 <= k < |wishes| ==> r.internal != wishes[k].internal
    ensures UniquePorts(rows + Assigned(user, pod, node, wishes, free))
  {
    var new_ := Assigned(user, pod, node, wishes, free);
    var all := rows + new_;
    forall i, j | 0 <= i < j < |all|
      ensures all[i].external != all[j].external && !(all[i].pod == all[j].pod && all[i].internal == all[j].internal)
    {
      if i < |rows| <= j {
        assert all[i] in rows && free[j - |rows|] in free;
        assert all[i].external in Externals(rows);
      }
    }
  }

  /** One row for each wish, on the free ports in their order. */
  method AssignInOrder(user: string, pod: string, node: string, wishes: seq<Wish>, free: seq<int>) returns (r: seq<Row>)
    requires |wishes| <= |free|
    ensures r == Assigned(user, pod, node, wishes, free)
  {
    r := [];
    for k := 0 to |wishes|
      invariant |r| == k
      invariant forall i :: 0 <= i < k ==> r[i] == Row(user, pod, node, wishes[i].internal, free[i], wishes[i].purpose)
    {
      r := r + [Row(user, pod, node, wishes[k].internal, free[k], wishes[k].purpose)];
    }
  }

  // ---------- the stores ----------

  datatype Outcome =
    | PodNotFound
    | NoAllocation
    | OwnerMismatch
    | Stopped
    | NotEnoughPorts
    | PortTaken
    | Done

  class Stores {
    var rows: seq<Row>
    var services: map<Name, Service>
    var nextName: Name
    /** External ports held by Services that are not the account system's. */
    var foreign: set<int>

    constructor (rows: seq<Row>, services: map<Name, Service>, nextName: Name, foreign: set<int>)
      ensures this.rows == rows && this.services == services && this.nextName == nextName && this.foreign == foreign
    {
      this.rows, this.services, this.nextName, this.foreign := rows, services, nextName, foreign;
    }

    ghost predicate Valid()
      reads this
    {
      Aligned(rows, services) && UniquePorts(rows) && OnePortEach(services) && forall n :: n in services ==> n < nextName
    }

    /** Deletes Services one by one until all are gone or `budget` calls have been made. */
    method DeleteServices(names: set<Name>, budget: nat) returns (left: nat, all: bool)
      requires Valid() && names <= services.Keys
      modifies this`services
      ensures Valid() && left <= budget && (all || left == 0)
      ensures forall n :: n in services ==> n in old(services) && services[n] == old(services)[n]
      ensures forall n :: n in old(services) && n !in names ==> n in services
      ensures all ==> forall n :: n in names ==> n !in services
      ensures all <==> |names| <= budget
      ensures all ==> left == budget - |names|
    {
      var todo := names;
      left := budget;
      while todo != {}
        invariant todo <= names && left == budget - (|names| - |todo|)
        invariant forall n :: n in services ==> n in old(services) && services[n] == old(services)[n]
        invariant forall n :: n in old(services) && (n !in names || n in todo) ==> n in services
        invariant forall n :: n in names && n !in todo ==> n !in services
        decreases |todo|
      {
        if left == 0 {
          return 0, false;
        }
        var n :| n in todo;
        services := services - {n};
        todo := todo - {n};
        left := left - 1;
      }
      all := true;
    }

    /** Deletes the rows of some internal ports of a Pod, in one transaction. */
    method Release(pod: string, ports: set<int>)
      requires Valid() && forall n :: n in services && services[n].pod == pod ==> services[n].internal !in ports
      modifies this`rows
      ensures Valid()
      ensures rows == Keep(old(rows), {pod}, Some(ports))
      ensures forall r :: r in rows <==> r in old(rows) && !(r.pod == pod && r.internal in ports)
    {
      KeepKeepsUnique(rows, {pod}, Some(ports));
      rows := Keep(rows, {pod}, Some(ports));
      forall n | n in services ensures exists r :: r in rows && Backs(r, services[n]) {
        var r :| r in old(rows) && Backs(r, services[n]);
        assert r in rows;
      }
    }

    /** Deletes the rows of Pods past their grace that have no live Service. */
    method Reconcile(pastGrace: set<string>)
      requires Valid()
      modifies this`rows
      ensures Valid()
      ensures forall r :: r in rows <==>
                r in old(rows) && !(r.pod in pastGrace && forall n :: n in services ==> services[n].pod != r.pod)
    {
      var live := set n | n in services :: services[n].pod;
      KeepKeepsUnique(rows, pastGrace - live, None);
      rows := Keep(rows, pastGrace - live, None);
      forall n | n in services ensures exists r :: r in rows && Backs(r, services[n]) {
        var r :| r in old(rows) && Backs(r, services[n]);
        assert r in rows;
      }
    }

    /** Gives the lowest free ports to a Pod's new internal ports, all or none. */
    method AllocateNodeports(user: string, pod: string, node: string, wishes: seq<Wish>, clusterKnown: bool)
      returns (ok: bool)
      requires Valid()
      requires forall i, j :: 0 <= i < j < |wishes| ==> wishes[i].internal != wishes[j].internal
      requires forall r, k :: r in rows && r.pod == pod && 0 <= k < |wishes| ==> r.internal != wishes[k].internal
      modifies this`rows
      ensures Valid()
      ensures var free := FreePorts(Used(old(rows), services, foreign, clusterKnown), NODEPORT_MIN);
              && (ok <==> |wishes| <= |free|)
              && rows == old(rows) + (if ok then Assigned(user, pod, node, wishes, free) else [])
      ensures ok <==> |wishes| <= FreeFrom(old(rows), services, foreign, clusterKnown, NODEPORT_MIN)
      ensures ok ==>
                && |old(rows)| <= |rows|
                && LowestFree(old(rows), rows[|old(rows)|..], user, pod, node, wishes, services, foreign, clusterKnown)
    {
      FreePortsCount(rows, services, foreign, clusterKnown, NODEPORT_MIN);
      var used := Used(rows, services, foreign, clusterKnown);
      var available := FreePorts(used, NODEPORT_MIN);
      if |available| < |wishes| {
        return false;
      }
      var inserted := AssignInOrder(user, pod, node, wishes, available);
      AssignedKeepsUnique(rows, user, pod, node, wishes, available);
      AppendKeepsAligned(rows, inserted, services);
      AssignedAreLowest(rows, user, pod, node, wishes, services, foreign, clusterKnown);
      assert (rows + inserted)[|rows|..] == inserted;
      rows := rows + inserted;
      return true;
    }

    /** Creates a Service for every listed row; the cluster refuses a port that is taken. */
    method CreateServices(wanted: seq<Row>, budget: nat) returns (outcome: Outcome)
      requires Valid() && forall r :: r in wanted ==> r in rows
      modifies this`services, this`nextName
      ensures Valid()
      ensures outcome.Done? || outcome.Stopped? || outcome.PortTaken?
      ensures forall n :: n in old(services) ==> n in services && services[n] == old(services)[n]
      ensures forall n :: n in services && n !in old(services) ==>
                exists r :: r in wanted && services[n] == Service(r.pod, r.internal, r.external)
      ensures outcome.Done? ==> forall r :: r in wanted ==> Served(services, r)
      ensures wanted == [] ==> outcome.Done? && services == old(services)
      ensures outcome.Stopped? ==> budget < |wanted|
      // a port that is taken is held by a Service
      ensures outcome.PortTaken? ==> exists r :: r in wanted && r.external in InUse(services) + foreign
      ensures NoneHeld(wanted, old(services), foreign) ==> !outcome.PortTaken?
    {
      var left := budget;
      for k := 0 to |wanted|
        invariant Valid()
        invariant GrownBy(old(services), services, wanted)
        invariant forall r :: r in wanted[..k] ==> Served(services, r)
        invariant k == 0 ==> services == old(services)
        invariant left == budget - k
        invariant InUse(services) <= InUse(old(services)) + Externals(wanted[..k])
      {
        var r := wanted[k];
        PrefixExternals(wanted, k);
        if r.external in InUse(services) + foreign {
          return PortTaken;
        }
        if left == 0 {
          return Stopped;
        }
        ghost var before := services;
        services := services[nextName := Service(r.pod, r.internal, r.external)];
        OneMoreService(rows, before, nextName, r);
        OneMoreServed(before, wanted[..k], nextName, r);
        OneMoreGrown(old(services), before, wanted, nextName, r);
        nextName := nextName + 1;
        left := left - 1;
      }
      assert wanted[..|wanted|] == wanted;
      return Done;
    }
  }

  lemma AppendKeepsAligned(rows: seq<Row>, more: seq<Row>, services: map<Name, Service>)
    requires Aligned(rows, services)
    ensures Aligned(rows + more, services)
  {
  }

  /** The rows are on different ports, and no Service holds any of them. */
  ghost predicate NoneHeld(wanted: seq<Row>, services: map<Name, Service>, foreign: set<int>) {
    && (forall r :: r in wanted ==> r.external !in InUse(services) + foreign)
    && OnDifferentPorts(wanted)
  }

  ghost predicate OnDifferentPorts(rows: seq<Row>) {
    forall i, j :: 0 <= i < j < |rows| ==> rows[i].external != rows[j].external
  }

  /** What was there stands, and what is new serves one of the rows. */
  ghost predicate GrownBy(before: map<Name, Service>, after: map<Name, Service>, wanted: seq<Row>) {
    && (forall n :: n in before ==> n in after && after[n] == before[n])
    && (forall n :: n in after && n !in before ==>
          exists r :: r in wanted && after[n] == Service(r.pod, r.internal, r.external))
  }

  lemma OneMoreGrown(before: map<Name, Service>, services: map<Name, Service>, wanted: seq<Row>, name: Name, r: Row)
    requires GrownBy(before, services, wanted) && name !in services && r in wanted
    ensures GrownBy(before, services[name := Service(r.pod, r.internal, r.external)], wanted)
  {
  }

  lemma PrefixExternals(wanted: seq<Row>, k: nat)
    requires k < |wanted|
    ensures wanted[..k + 1] == wanted[..k] + [wanted[k]]
    ensures Externals(wanted[..k + 1]) == Externals(wanted[..k]) + {wanted[k].external}
  {
  }

  lemma OneMoreServed(services: map<Name, Service>, served: seq<Row>, name: Name, r: Row)
    requires name !in services && forall x :: x in served ==> Served(services, x)
    ensures forall x :: x in served + [r] ==> Served(services[name := Service(r.pod, r.internal, r.external)], x)
  {
    var more := services[name := Service(r.pod, r.internal, r.external)];
    ServedStays(services, more, served);
    assert Backs(r, more[name]);
  }

  lemma OneMoreService(rows: seq<Row>, services: map<Name, Service>, name: Name, r: Row)
    requires Aligned(rows, services) && OnePortEach(services) && (forall n :: n in services ==> n < name)
    requires r in rows && r.external !in InUse(services)
    ensures var more := services[name := Service(r.pod, r.internal, r.external)];
            && Aligned(rows, more) && OnePortEach(more) && (forall n :: n in more ==> n < name + 1)
            && InUse(more) == InUse(services) + {r.external}
  {
    var more := services[name := Service(r.pod, r.internal, r.external)];
    forall p ensures p in InUse(more) <==> p in InUse(services) + {r.external} {
      if p in InUse(services) {
        var n :| n in services && services[n].external == p;
        assert more[n].external == p;
      }
      assert more[name].external == r.external;
    }
    forall n | n in more ensures exists x :: x in rows && Backs(x, more[n]) {
      if n == name { assert Backs(r, more[n]); }
    }
    forall n | n in services ensures services[n].external != r.external {
      assert services[n].external in InUse(services);
    }
  }

  lemma ServedStays(before: map<Name, Service>, after: map<Name, Service>, rows: seq<Row>)
    requires forall n :: n in before ==> n in after && after[n] == before[n]
    requires forall r :: r in rows ==> Served(before, r)
    ensures forall r :: r in rows ==> Served(after, r)
  {
  }
}
