/**
 Which node is flagged as the destination after a snapshot: nsr_topology_update_from_telemetry sets
 the flag first and clears it again at every hop or alias with the target's own address
 (src/state/topology.c:122-149).
 */
module TopologyFlags {
  import opened Topology
  import opened TopologyUpdate

  ghost predicate NoFlags(reqs: seq<Req>) {
    forall i :: 0 <= i < |reqs| ==> !reqs[i].isDestination
  }

  lemma OneClears(ns: seq<Node>, target: string, r: Req, i: nat)
    requires Unique(ns) && i < |ns| && ns[i].target == target && !r.isDestination
    ensures var ns' := Upsert(ns, target, r).0;
            i < |ns'| && ns'[i].addr == ns[i].addr && ns'[i].target == target
            && ns'[i].isDestination == (ns[i].isDestination && r.addr != ns[i].addr)
  {
    hide Upsert;
    UpsertStep(ns, target, r);
    var (ns', id) := Upsert(ns, target, r);
    if r.addr == ns[i].addr {
      assert Matches(ns[i], target, r.addr);
      assert id > 0 && Matches(ns'[id - 1], target, r.addr) && Matches(ns'[i], target, r.addr);
      assert id - 1 == i;
    }
  }

  /** Requests that are not for the destination leave a node flagged if and only if it was and none
      of them names it. */
  lemma {:induction false} FlagAfter(ns: seq<Node>, target: string, reqs: seq<Req>, i: nat)
    requires Unique(ns) && i < |ns| && ns[i].target == target && NoFlags(reqs)
    ensures var ns' := UpsertAll(ns, target, reqs).0;
            i < |ns'| && ns'[i].isDestination == (ns[i].isDestination && !Touched(ns[i], target, reqs))
    decreases |reqs|
  {
    hide Upsert, UpsertAll, Touched, Unique;
    if reqs == [] {
      UpsertNone(ns, target);
      NothingTouches(ns[i], target);
    } else {
      UpsertAllCons(ns, target, reqs);
      UpsertStep(ns, target, reqs[0]);
      OneClears(ns, target, reqs[0], i);
      var ns1 := Upsert(ns, target, reqs[0]).0;
      TouchedStep(ns[i], target, reqs);
      SameTouched(ns[i], ns1[i], target, reqs[1..]);
      FlagAfter(ns1, target, reqs[1..], i);
    }
  }

  lemma NothingTouches(n: Node, target: string)
    ensures !Touched(n, target, [])
  {
  }

  // ----- which addresses a snapshot names

  predicate Names(hop: HopSeen, addr: string) {
    hop.addr != "" && (hop.addr == addr || addr in hop.aliases)
  }

  /** Some hop below n answered from this address, or has it as an alias. */
  predicate OnPath(hops: seq<HopSeen>, n: nat, addr: string)
    requires n <= |hops|
  {
    exists i :: 1 <= i < n && Names(hops[i], addr)
  }

  ghost predicate Asks(reqs: seq<Req>, addr: string) {
    exists k :: 0 <= k < |reqs| && reqs[k].addr == addr
  }

  lemma AsksConcat(a: seq<Req>, b: seq<Req>, addr: string)
    ensures Asks(a + b, addr) == (Asks(a, addr) || Asks(b, addr))
    ensures NoFlags(a) && NoFlags(b) ==> NoFlags(a + b)
  {
    if k :| 0 <= k < |a| && a[k].addr == addr {
      assert (a + b)[k].addr == addr;
    }
    if k :| 0 <= k < |b| && b[k].addr == addr {
      assert (a + b)[|a| + k].addr == addr;
    }
  }

  lemma HopAsks(hop: HopSeen, ttl: nat, addr: string)
    ensures Asks(HopReqs(hop, ttl), addr) == Names(hop, addr) && NoFlags(HopReqs(hop, ttl))
  {
    if hop.addr != "" {
      var more := AliasReqs(hop.aliases, ttl);
      AsksConcat([Req(hop.addr, ttl, false)], more, addr);
      assert Asks([Req(hop.addr, ttl, false)], addr) == (hop.addr == addr) by {
        assert [Req(hop.addr, ttl, false)][0].addr == hop.addr;
      }
      AliasesAsk(hop.aliases, ttl, addr);
    }
  }

  lemma AliasesAsk(aliases: seq<string>, ttl: nat, addr: string)
    ensures Asks(AliasReqs(aliases, ttl), addr) == (addr in aliases) && NoFlags(AliasReqs(aliases, ttl))
  {
    var reqs := AliasReqs(aliases, ttl);
    assert forall k :: 0 <= k < |aliases| ==> reqs[k].addr == aliases[k];
    if k :| 0 <= k < |aliases| && aliases[k] == addr {
      assert reqs[k].addr == addr;
    }
  }

  lemma {:induction false} HopsAsk(hops: seq<HopSeen>, n: nat, addr: string)
    requires n <= |hops|
    ensures Asks(HopsReqs(hops, n), addr) == OnPath(hops, n, addr) && NoFlags(HopsReqs(hops, n))
  {
    hide Asks, HopReqs, Names, NoFlags;
    if n <= 1 {
      NoneAsked(addr);
    } else {
      HopsAsk(hops, n - 1, addr);
      HopAsks(hops[n - 1], n - 1, addr);
      AsksConcat(HopsReqs(hops, n - 1), HopReqs(hops[n - 1], n - 1), addr);
      if OnPath(hops, n, addr) && !Names(hops[n - 1], addr) {
        var i :| 1 <= i < n && Names(hops[i], addr);
        assert i < n - 1;
      }
    }
  }

  lemma NoneAsked(addr: string)
    ensures !Asks([], addr) && NoFlags([])
  {
  }

  lemma TouchedIsAsked(n: Node, target: string, reqs: seq<Req>)
    requires n.target == target
    ensures Touched(n, target, reqs) == Asks(reqs, n.addr)
  {
    if i :| 0 <= i < |reqs| && reqs[i].addr == n.addr {
      assert Matches(n, target, reqs[i].addr);
    }
  }

  // ----- the destination

  lemma SettleKeepsFlags(ns: seq<Node>, dest: nat, last: nat, j: nat)
    requires dest <= |ns| && j < |ns|
    ensures var ns' := Settle(ns, dest, last);
            |ns'| == |ns| && ns'[j].addr == ns[j].addr && ns'[j].target == ns[j].target
            && ns'[j].isDestination == ns[j].isDestination
  {
  }

  /** The first request flags the destination, unless the full table has no room for it. */
  lemma FirstFlags(ns: seq<Node>, target: string)
    requires Unique(ns) && target != ""
    ensures var (ns1, id) := Upsert(ns, target, Req(target, 0, true));
            && Unique(ns1) && id <= |ns1|
            && (id > 0 ==> Matches(ns1[id - 1], target, target) && ns1[id - 1].isDestination)
            && (id == 0 ==> Missing(ns1, target))
  {
    hide Upsert;
    UpsertStep(ns, target, Req(target, 0, true));
  }

  ghost predicate Missing(ns: seq<Node>, x: string) {
    |ns| == MAX_NODES && forall j :: 0 <= j < |ns| ==> !Matches(ns[j], x, x)
  }

  lemma OneNode(ns: seq<Node>, i: nat, j: nat, target: string, addr: string)
    requires Unique(ns) && i < |ns| && j < |ns| && Matches(ns[i], target, addr) && Matches(ns[j], target, addr)
    ensures i == j
  {
  }

  /** One request for the destination, then others: its node is flagged unless one of them names it. */
  lemma FlagOfAll(ns0: seq<Node>, x: string, reqs: seq<Req>, j: nat)
    requires Unique(ns0) && x != "" && NoFlags(reqs)
    ensures var ns := UpsertAll(ns0, x, [Req(x, 0, true)] + reqs).0;
            j < |ns| && Matches(ns[j], x, x) ==> ns[j].isDestination == !Asks(reqs, x)
  {
    hide Unique, Upsert, UpsertAll, Touched, Extends, Asks, NoFlags, Missing;
    var all := [Req(x, 0, true)] + reqs;
    assert all[0] == Req(x, 0, true) && all[1..] == reqs;
    UpsertAllKeeps(ns0, x, all);
    UpsertAllCons(ns0, x, all);
    FirstFlags(ns0, x);
    var (ns1, id) := Upsert(ns0, x, all[0]);
    UpsertAllKeeps(ns1, x, reqs);
    var ns := UpsertAll(ns0, x, all).0;
    if j < |ns| && Matches(ns[j], x, x) {
      Identities(ns1, ns, id, j, x);
      FlagAfter(ns1, x, reqs, id - 1);
      OneNode(ns, id - 1, j, x, x);
      TouchedIsAsked(ns1[id - 1], x, reqs);
    }
  }

  /** After a snapshot the destination's node is flagged if and only if no hop or alias of the
      snapshot has the target's own address. */
  lemma DestinationFlag(t: Topo, snap: Snapshot, j: nat)
    requires Good(t) && WellFormed(snap) && snap.target != ""
    requires j < |Update(t, snap).nodes| && Matches(Update(t, snap).nodes[j], snap.target, snap.target)
    ensures Update(t, snap).nodes[j].isDestination <==> !OnPath(snap.hops, MAX_HOPS, snap.target)
  {
    hide Unique, UpsertAll, Settle, HopsReqs, OnPath, EdgesOk, Asks, NoFlags, Rows, AddAll;
    UpsertAllKeeps(t.nodes, snap.target, AllReqs(snap));
    var (ns, ids) := UpsertAll(t.nodes, snap.target, AllReqs(snap));
    var last := LastHop(Rows(snap.hops, MAX_HOPS, ids[1..]), MAX_HOPS);
    SettleLength(ns, ids[0], last);
    SettleKeepsFlags(ns, ids[0], last, j);
    HopsAsk(snap.hops, MAX_HOPS, snap.target);
    FlagOfAll(t.nodes, snap.target, HopsReqs(snap.hops, MAX_HOPS), j);
  }

  /** A node found after a snapshot was there after its first request. */
  lemma Identities(ns1: seq<Node>, ns: seq<Node>, id: nat, j: nat, x: string)
    requires Unique(ns1) && Unique(ns) && Extends(ns1, ns) && j < |ns| && Matches(ns[j], x, x) && id <= |ns1|
    requires if id == 0 then Missing(ns1, x) else Matches(ns1[id - 1], x, x)
    ensures id > 0 && Matches(ns[id - 1], x, x)
  {
    assert j < |ns1| ==> Matches(ns1[j], x, x);
  }
}
