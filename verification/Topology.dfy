/**
 The topology graph built from telemetry snapshots (src/state/topology.c), as values: nodes
 in order of their ids (node i has id i + 1), edges in order of insertion.  Health figures
 are not part of this model.
 */
module Topology {

  const MAX_NODES: nat := 1024
  const MAX_EDGES: nat := 2048
  const MAX_HOPS: nat := 64
  const ROW: nat := 4  // one primary and three aliases

  datatype Node = Node(addr: string, target: string, ttl: nat, isDestination: bool)

  type Edge = (nat, nat)

  datatype Topo = Topo(nodes: seq<Node>, edges: seq<Edge>)

  /** What one hop of a snapshot shows: a primary address, or none, and up to three aliases. */
  datatype HopSeen = HopSeen(addr: string, aliases: seq<string>)

  datatype Snapshot = Snapshot(target: string, hops: seq<HopSeen>)

  predicate WellFormed(snap: Snapshot) {
    |snap.hops| == MAX_HOPS && forall i :: 0 <= i < MAX_HOPS ==> |snap.hops[i].aliases| < ROW
  }

  // ----- nodes

  /** A node to look up or create. */
  datatype Req = Req(addr: string, ttl: nat, isDestination: bool)

  predicate Matches(n: Node, target: string, addr: string) {
    n.addr == addr && n.target == target
  }

  /** The first node with this address and target, or how many nodes there are. */
  function Find(ns: seq<Node>, target: string, addr: string): (i: nat)
    ensures i <= |ns|
    ensures i < |ns| ==> Matches(ns[i], target, addr)
    ensures forall j :: 0 <= j < i ==> !Matches(ns[j], target, addr)
  {
    if ns == [] then 0
    else
      var i := Find(ns[..|ns| - 1], target, addr);
      if i < |ns| - 1 || Matches(ns[|ns| - 1], target, addr) then i else |ns|
  }

  /** The id is 0 when the address is empty or the table is full. */
  function Upsert(ns: seq<Node>, target: string, r: Req): (seq<Node>, nat) {
    if r.addr == "" || target == "" then (ns, 0)
    else
      var i := Find(ns, target, r.addr);
      if i < |ns| then (ns[i := ns[i].(ttl := r.ttl, isDestination := r.isDestination)], i + 1)
      else if |ns| >= MAX_NODES then (ns, 0)
      else (ns + [Node(r.addr, target, r.ttl, r.isDestination)], |ns| + 1)
  }

  function UpsertAll(ns: seq<Node>, target: string, reqs: seq<Req>): (seq<Node>, seq<nat>)
    decreases |reqs|
  {
    if reqs == [] then (ns, [])
    else
      var (ns1, id) := Upsert(ns, target, reqs[0]);
      var (ns2, ids) := UpsertAll(ns1, target, reqs[1..]);
      (ns2, [id] + ids)
  }

  lemma {:induction false} UpsertConcat(ns: seq<Node>, target: string, a: seq<Req>, b: seq<Req>)
    ensures var (ns1, ids1) := UpsertAll(ns, target, a);
            var (ns2, ids2) := UpsertAll(ns1, target, b);
            UpsertAll(ns, target, a + b) == (ns2, ids1 + ids2)
    decreases |a|
  {
    if a == [] {
      assert a + b == b;
      assert [] + UpsertAll(ns, target, b).1 == UpsertAll(ns, target, b).1;
    } else {
      var (ns1, id) := Upsert(ns, target, a[0]);
      assert (a + b)[1..] == a[1..] + b && (a + b)[0] == a[0];
      UpsertConcat(ns1, target, a[1..], b);
      var ids1 := UpsertAll(ns1, target, a[1..]).1;
      var ids2 := UpsertAll(UpsertAll(ns1, target, a[1..]).0, target, b).1;
      assert [id] + (ids1 + ids2) == ([id] + ids1) + ids2;
    }
  }

  lemma UpsertOne(ns: seq<Node>, target: string, r: Req)
    ensures UpsertAll(ns, target, [r]) == (Upsert(ns, target, r).0, [Upsert(ns, target, r).1])
  {
    var (ns1, id) := Upsert(ns, target, r);
    assert [r][1..] == [];
    assert UpsertAll(ns1, target, []) == (ns1, []);
    assert [id] + [] == [id];
  }

  ghost predicate Unique(ns: seq<Node>) {
    && |ns| <= MAX_NODES
    && (forall i :: 0 <= i < |ns| ==> ns[i].addr != "" && ns[i].target != "")
    && forall i, j :: 0 <= i < j < |ns| ==> !Matches(ns[j], ns[i].target, ns[i].addr)
  }

  /** Every node of `a` is in `b`, at the same place and with the same identity. */
  ghost predicate Extends(a: seq<Node>, b: seq<Node>) {
    |a| <= |b| && forall i :: 0 <= i < |a| ==> b[i].addr == a[i].addr && b[i].target == a[i].target
  }

  predicate Touched(n: Node, target: string, reqs: seq<Req>) {
    exists i :: 0 <= i < |reqs| && Matches(n, target, reqs[i].addr)
  }

  lemma UpsertStep(ns: seq<Node>, target: string, r: Req)
    requires Unique(ns)
    ensures var (ns', id) := Upsert(ns, target, r);
            && Unique(ns') && Extends(ns, ns')
            && (forall j :: 0 <= j < |ns| && !Matches(ns[j], target, r.addr) ==> ns'[j] == ns[j])
            && id <= |ns'|
            && (id > 0 ==> ns'[id - 1] == Node(r.addr, target, r.ttl, r.isDestination))
            && (id == 0 ==>
                  && ns' == ns
                  && (r.addr == "" || target == "" || (|ns| == MAX_NODES && Find(ns, target, r.addr) == |ns|)))
  {
  }

  /** What a whole list of requests keeps: identities, their places, and whatever it does not name. */
  lemma {:induction false} UpsertAllKeeps(ns: seq<Node>, target: string, reqs: seq<Req>)
    requires Unique(ns)
    ensures var (ns', ids) := UpsertAll(ns, target, reqs);
            && Unique(ns') && Extends(ns, ns') && |ids| == |reqs|
            && (forall k :: 0 <= k < |ids| ==> ids[k] <= |ns'|)
            && (forall k :: 0 <= k < |ids| && ids[k] > 0 ==> ns'[ids[k] - 1].target == target)
            && (forall j :: 0 <= j < |ns| && !Touched(ns[j], target, reqs) ==> ns'[j] == ns[j])
    decreases |reqs|
  {
    UpsertNone(ns, target);
    hide Upsert, Find, UpsertAll, Unique, Touched, Matches;
    if reqs != [] {
      var r, rest := reqs[0], reqs[1..];
      UpsertStep(ns, target, r);
      var (ns1, id) := Upsert(ns, target, r);
      UpsertAllKeeps(ns1, target, rest);
      UpsertAllCons(ns, target, reqs);
      TouchedCons(ns, target, reqs);
    }
  }

  lemma UpsertNone(ns: seq<Node>, target: string)
    ensures UpsertAll(ns, target, []) == (ns, [])
  {
  }

  lemma UpsertAllCons(ns: seq<Node>, target: string, reqs: seq<Req>)
    requires reqs != []
    ensures var (ns1, id) := Upsert(ns, target, reqs[0]);
            var (ns2, ids) := UpsertAll(ns1, target, reqs[1..]);
            UpsertAll(ns, target, reqs) == (ns2, [id] + ids)
  {
  }

  lemma TouchedCons(ns: seq<Node>, target: string, reqs: seq<Req>)
    requires reqs != []
    ensures forall j :: 0 <= j < |ns| ==> (Touched(ns[j], target, reqs) <==>
                                           Matches(ns[j], target, reqs[0].addr) || Touched(ns[j], target, reqs[1..]))
  {
    forall j | 0 <= j < |ns|
      ensures Touched(ns[j], target, reqs) <==>
              Matches(ns[j], target, reqs[0].addr) || Touched(ns[j], target, reqs[1..])
    {
      TouchedStep(ns[j], target, reqs);
    }
  }

  lemma TouchedStep(n: Node, target: string, reqs: seq<Req>)
    requires reqs != []
    ensures Touched(n, target, reqs) <==> Matches(n, target, reqs[0].addr) || Touched(n, target, reqs[1..])
  {
    if Touched(n, target, reqs) {
      var i :| 0 <= i < |reqs| && Matches(n, target, reqs[i].addr);
      if i > 0 {
        assert reqs[1..][i - 1] == reqs[i];
      }
    }
    if Touched(n, target, reqs[1..]) {
      var i :| 0 <= i < |reqs[1..]| && Matches(n, target, reqs[1..][i].addr);
      assert reqs[i + 1] == reqs[1..][i];
    }
  }

  // ----- running the same requests again

  /** `m` is `n` with arbitrary attributes on the nodes that the requests name. */
  ghost predicate SameElsewhere(m: seq<Node>, n: seq<Node>, target: string, reqs: seq<Req>) {
    && Extends(n, m) && |m| == |n|
    && forall j :: 0 <= j < |n| && !Touched(n[j], target, reqs) ==> m[j] == n[j]
  }

  lemma FindByIdentity(m: seq<Node>, n: seq<Node>, i: nat, target: string, addr: string)
    requires Unique(n) && Extends(n, m) && |m| == |n|
    ensures i < |n| && Matches(n[i], target, addr) ==> Find(m, target, addr) == i
    ensures (forall j :: 0 <= j < |n| ==> !Matches(n[j], target, addr)) ==> Find(m, target, addr) == |m|
  {
    var k := Find(m, target, addr);
    if k < |m| {
      assert Matches(n[k], target, addr);
    }
  }

  /** One request on the rerun: it finds what it found or made the first time, or fails again. */
  lemma RerunStep(ns: seq<Node>, target: string, r: Req, rest: seq<Req>, m: seq<Node>)
    requires Unique(ns)
    requires var ns1 := Upsert(ns, target, r).0; SameElsewhere(m, UpsertAll(ns1, target, rest).0, target, [r] + rest)
    ensures var (ns1, id) := Upsert(ns, target, r);
            var n := UpsertAll(ns1, target, rest).0;
            Upsert(m, target, r).1 == id && SameElsewhere(Upsert(m, target, r).0, n, target, rest)
  {
    UpsertStep(ns, target, r);
    var (ns1, id) := Upsert(ns, target, r);
    UpsertAllKeeps(ns1, target, rest);
    var n := UpsertAll(ns1, target, rest).0;
    hide UpsertAll;
    TouchedCons(n, target, [r] + rest);
    assert ([r] + rest)[1..] == rest;
    if id > 0 {
      FindByIdentity(m, n, id - 1, target, r.addr);
      RerunFound(m, n, ns1, target, r, rest, id - 1);
    } else if r.addr != "" && target != "" {
      FullMisses(ns, n, target, r.addr);
      FindByIdentity(m, n, 0, target, r.addr);
      RerunMissed(m, n, target, r, rest);
    } else {
      RerunMissed(m, n, target, r, rest);
    }
  }

  lemma FullMisses(ns: seq<Node>, n: seq<Node>, target: string, addr: string)
    requires |ns| == MAX_NODES && Unique(n) && Extends(ns, n) && Find(ns, target, addr) == |ns|
    ensures forall j :: 0 <= j < |n| ==> !Matches(n[j], target, addr)
  {
    forall j | 0 <= j < |n|
      ensures !Matches(n[j], target, addr)
    {
      assert !Matches(ns[j], target, addr);
    }
  }

  lemma RerunFound(m: seq<Node>, n: seq<Node>, ns1: seq<Node>, target: string, r: Req, rest: seq<Req>, i: nat)
    requires Unique(n) && SameElsewhere(m, n, target, [r] + rest) && r.addr != "" && target != ""
    requires i < |ns1| <= |n| && Extends(ns1, n) && ns1[i] == Node(r.addr, target, r.ttl, r.isDestination)
    requires Find(m, target, r.addr) == i
    requires forall j :: 0 <= j < |ns1| && !Touched(ns1[j], target, rest) ==> n[j] == ns1[j]
    requires forall j :: 0 <= j < |n| ==>
               (Touched(n[j], target, [r] + rest) <==> Matches(n[j], target, r.addr) || Touched(n[j], target, rest))
    ensures SameElsewhere(Upsert(m, target, r).0, n, target, rest) && Upsert(m, target, r).1 == i + 1
  {
    var m' := Upsert(m, target, r).0;
    forall j | 0 <= j < |n| && !Touched(n[j], target, rest)
      ensures m'[j] == n[j]
    {
      if j == i {
        SameTouched(n[j], ns1[j], target, rest);
      }
    }
  }

  lemma SameTouched(a: Node, b: Node, target: string, reqs: seq<Req>)
    requires a.addr == b.addr && a.target == b.target
    ensures Touched(a, target, reqs) == Touched(b, target, reqs)
  {
  }

  lemma RerunMissed(m: seq<Node>, n: seq<Node>, target: string, r: Req, rest: seq<Req>)
    requires Unique(n) && SameElsewhere(m, n, target, [r] + rest)
    requires r.addr == "" || target == "" || (|m| == MAX_NODES && Find(m, target, r.addr) == |m|)
    requires forall j :: 0 <= j < |n| ==>
               (Touched(n[j], target, [r] + rest) <==> Matches(n[j], target, r.addr) || Touched(n[j], target, rest))
    ensures SameElsewhere(Upsert(m, target, r).0, n, target, rest) && Upsert(m, target, r).1 == 0
  {
    forall j | 0 <= j < |n|
      ensures !Matches(n[j], target, r.addr)
    {
      if Matches(n[j], target, r.addr) {
        assert Matches(m[j], target, r.addr);
      }
    }
  }

  /** Running the requests again on their own result, even after the attributes of the nodes
      they name were changed, gives the same nodes and the same ids. */
  lemma {:induction false} Rerun(ns: seq<Node>, target: string, reqs: seq<Req>, m: seq<Node>)
    requires Unique(ns) && SameElsewhere(m, UpsertAll(ns, target, reqs).0, target, reqs)
    ensures UpsertAll(m, target, reqs) == UpsertAll(ns, target, reqs)
    decreases |reqs|
  {
    if reqs == [] {
      assert m == ns;
    } else {
      var r, rest := reqs[0], reqs[1..];
      assert [r] + rest == reqs;
      UpsertAllCons(ns, target, reqs);
      UpsertAllCons(m, target, reqs);
      UpsertStep(ns, target, r);
      hide UpsertAll, Upsert, SameElsewhere, Unique;
      RerunStep(ns, target, r, rest, m);
      Rerun(Upsert(ns, target, r).0, target, rest, Upsert(m, target, r).0);
    }
  }
}
