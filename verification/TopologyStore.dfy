/**
 The topology store itself (src/state/topology.c): fixed node and edge tables updated in
 place.  Every operation is proved against the value model: the store always represents a
 topology, and one telemetry snapshot takes it where TopologyUpdate.Update says.
 */
module TopologyStore {
  import opened Topology
  import opened TopologyUpdate

  datatype NodeSlot = NodeSlot(id: nat, addr: string, target: string, ttl: nat, isDestination: bool, active: bool)

  datatype EdgeSlot = EdgeSlot(from: nat, to: nat, active: bool)

  /** Which node lives in a slot: ids start at 1 and slot 0 belongs to id 1024. */
  function NodeOf(slot: nat): (i: nat)
    requires slot < MAX_NODES
    ensures i < MAX_NODES && (i + 1) % MAX_NODES == slot
  {
    if slot == 0 then MAX_NODES - 1 else slot - 1
  }

  function Stored(n: Node, i: nat): NodeSlot {
    NodeSlot(i + 1, n.addr, n.target, n.ttl, n.isDestination, true)
  }

  /** Each node sits in slot id mod 1024 and the other slots are free. */
  ghost predicate NodesHeld(slots: seq<NodeSlot>, ns: seq<Node>) {
    && |slots| == MAX_NODES && |ns| <= MAX_NODES
    && forall k :: 0 <= k < MAX_NODES ==>
         if NodeOf(k) < |ns| then slots[k] == Stored(ns[NodeOf(k)], NodeOf(k)) else !slots[k].active
  }

  /** The edges fill the table from the front. */
  ghost predicate EdgesHeld(slots: seq<EdgeSlot>, es: seq<Edge>) {
    && |slots| == MAX_EDGES && |es| <= MAX_EDGES
    && forall k :: 0 <= k < MAX_EDGES ==>
         if k < |es| then slots[k] == EdgeSlot(es[k].0, es[k].1, true) else !slots[k].active
  }

  lemma SlotOfNode(i: nat)
    requires i < MAX_NODES
    ensures NodeOf((i + 1) % MAX_NODES) == i
  {
  }

  lemma NodesSet(slots: seq<NodeSlot>, ns: seq<Node>, i: nat, n: Node)
    requires NodesHeld(slots, ns) && i <= |ns| && i < MAX_NODES
    ensures NodesHeld(slots[(i + 1) % MAX_NODES := Stored(n, i)], if i < |ns| then ns[i := n] else ns + [n])
  {
    SlotOfNode(i);
  }

  lemma {:induction false} AddAllConcat(es: seq<Edge>, a: seq<Edge>, b: seq<Edge>)
    ensures AddAll(es, a + b) == AddAll(AddAll(es, a), b)
  {
    if b == [] {
      assert a + b == a;
    } else {
      var n := |b| - 1;
      assert (a + b)[..|a + b| - 1] == a + b[..n];
      AddAllConcat(es, a, b[..n]);
    }
  }

  lemma AddAllOne(es: seq<Edge>, e: Edge)
    ensures AddAll(es, [e]) == AddEdge(es, e) && AddAll(es, []) == es
  {
    assert [e][..0] == [];
  }

  class Store {
    const nodes: array<NodeSlot>
    const edges: array<EdgeSlot>
    var nodeCount: nat
    var edgeCount: nat
    var nextId: nat
    ghost var topo: Topo

    ghost predicate Valid()
      reads this, nodes, edges
    {
      && nodes.Length == MAX_NODES && edges.Length == MAX_EDGES
      && NodesHeld(nodes[..], topo.nodes) && EdgesHeld(edges[..], topo.edges)
      && nodeCount == |topo.nodes| && nextId == nodeCount + 1
      && edgeCount == |topo.edges|
      && Unique(topo.nodes)
    }

    constructor ()
      ensures Valid() && topo == Topo([], []) && fresh(nodes) && fresh(edges)
    {
      nodes := new NodeSlot[MAX_NODES](_ => NodeSlot(0, "", "", 0, false, false));
      edges := new EdgeSlot[MAX_EDGES](_ => EdgeSlot(0, 0, false));
      nodeCount, edgeCount, nextId := 0, 0, 1;
      topo := Topo([], []);
    }

    method FindByAddrAndTarget(addr: string, target: string) returns (found: bool, slot: nat)
      requires Valid()
      ensures found <==> Find(topo.nodes, target, addr) < |topo.nodes|
      ensures found ==> slot < MAX_NODES && NodeOf(slot) == Find(topo.nodes, target, addr)
    {
      var i := 0;
      while i < MAX_NODES
        invariant 0 <= i <= MAX_NODES
        invariant forall k :: 0 <= k < i && NodeOf(k) < |topo.nodes| ==> !Matches(topo.nodes[NodeOf(k)], target, addr)
      {
        if nodes[i].active && nodes[i].addr == addr && nodes[i].target == target {
          assert NodeOf(i) < |topo.nodes|;
          FindUnique(topo.nodes, NodeOf(i), target, addr);
          return true, i;
        }
        i := i + 1;
      }
      NotFound(topo.nodes, target, addr);
      return false, 0;
    }

    /** nsr_topology_upsert_node: the id of a new or known node, 0 when there is none. */
    method UpsertNode(addr: string, ttl: nat, target: string, isDestination: bool) returns (id: nat)
      requires Valid()
      modifies this, nodes
      ensures Valid() && topo.edges == old(topo.edges)
      ensures (topo.nodes, id) == Upsert(old(topo.nodes), target, Req(addr, ttl, isDestination))
    {
      UpsertStep(topo.nodes, target, Req(addr, ttl, isDestination));
      hide NodesHeld, EdgesHeld, Unique, Find, Matches;
      if addr == "" || target == "" {
        return 0;
      }
      var found, slot := FindByAddrAndTarget(addr, target);
      if found {
        id := Refresh(slot, ttl, isDestination);
        return;
      }
      if nodeCount >= MAX_NODES {
        return 0;
      }
      id := Create(Node(addr, target, ttl, isDestination));
    }

    method Refresh(slot: nat, ttl: nat, isDestination: bool) returns (id: nat)
      requires Valid() && slot < MAX_NODES && NodeOf(slot) < |topo.nodes|
      requires Unique(topo.nodes[NodeOf(slot) := topo.nodes[NodeOf(slot)].(ttl := ttl, isDestination := isDestination)])
      modifies `topo, nodes
      ensures Valid() && topo.edges == old(topo.edges) && id == NodeOf(slot) + 1
      ensures var n := old(topo.nodes[NodeOf(slot)]);
              topo.nodes == old(topo.nodes)[NodeOf(slot) := n.(ttl := ttl, isDestination := isDestination)]
    {
      hide NodesHeld, EdgesHeld, Unique;
      ghost var ns, slots, i := topo.nodes, nodes[..], NodeOf(slot);
      SlotHolds(slots, ns, slot);
      NodesSet(slots, ns, i, ns[i].(ttl := ttl, isDestination := isDestination));
      nodes[slot] := nodes[slot].(ttl := ttl, isDestination := isDestination);
      topo := topo.(nodes := ns[i := ns[i].(ttl := ttl, isDestination := isDestination)]);
      assert nodes[..] == slots[slot := nodes[slot]];
      return nodes[slot].id;
    }

    method Create(n: Node) returns (id: nat)
      requires Valid() && nodeCount < MAX_NODES && Unique(topo.nodes + [n])
      modifies this, nodes
      ensures Valid() && topo.edges == old(topo.edges)
      ensures topo.nodes == old(topo.nodes) + [n] && id == |topo.nodes|
    {
      hide NodesHeld, EdgesHeld, Unique;
      ghost var ns, slots := topo.nodes, nodes[..];
      id := nextId;
      nextId := nextId + 1;
      NodesSet(slots, ns, |ns|, n);
      nodes[id % MAX_NODES] := NodeSlot(id, n.addr, n.target, n.ttl, n.isDestination, true);
      nodeCount := nodeCount + 1;
      topo := topo.(nodes := ns + [n]);
      assert nodes[..] == slots[id % MAX_NODES := nodes[id % MAX_NODES]];
    }

    /** add_edge: appended unless it is a loop, has no end, is known, or the table is full. */
    method InsertEdge(from: nat, to: nat)
      requires Valid()
      modifies this, edges
      ensures Valid() && topo.nodes == old(topo.nodes)
      ensures topo.edges == AddEdge(old(topo.edges), (from, to))
    {
      if from == 0 || to == 0 || from == to {
        return;
      }
      if edgeCount >= MAX_EDGES {
        return;
      }
      var known := KnownEdge(from, to);
      if known {
        return;
      }
      var i := 0;
      while i < MAX_EDGES
        invariant 0 <= i <= |topo.edges|
      {
        if !edges[i].active {
          edges[i] := EdgeSlot(from, to, true);
          edgeCount := edgeCount + 1;
          topo := topo.(edges := topo.edges + [(from, to)]);
          return;
        }
        i := i + 1;
      }
    }

    method KnownEdge(from: nat, to: nat) returns (known: bool)
      requires Valid()
      ensures known <==> (from, to) in topo.edges
    {
      var i := 0;
      while i < MAX_EDGES
        invariant 0 <= i <= MAX_EDGES
        invariant forall k :: 0 <= k < i && k < |topo.edges| ==> topo.edges[k] != (from, to)
      {
        if edges[i].active && edges[i].from == from && edges[i].to == to {
          assert topo.edges[i] == (from, to);
          return true;
        }
        i := i + 1;
      }
      return false;
    }

    method NodeById(id: nat) returns (found: bool, slot: nat)
      requires Valid()
      ensures found <==> 0 < id <= |topo.nodes|
      ensures found ==> slot < MAX_NODES && NodeOf(slot) == id - 1
    {
      var i := 0;
      while i < MAX_NODES
        invariant 0 <= i <= MAX_NODES
        invariant forall k :: 0 <= k < i && NodeOf(k) < |topo.nodes| ==> NodeOf(k) != id - 1
      {
        if nodes[i].active && nodes[i].id == id {
          return true, i;
        }
        i := i + 1;
      }
      if 0 < id <= |topo.nodes| {
        SlotOfNode(id - 1);
      }
      return false, 0;
    }

    /** The nodes of one hop. */
    method UpsertHop(hop: HopSeen, ttl: nat, target: string) returns (row: seq<nat>, ghost ids: seq<nat>)
      requires Valid() && |hop.aliases| < ROW
      modifies this, nodes
      ensures Valid() && topo.edges == old(topo.edges)
      ensures (topo.nodes, ids) == UpsertAll(old(topo.nodes), target, HopReqs(hop, ttl))
      ensures row == Pad(ids)
    {
      hide NodesHeld, EdgesHeld, Unique, Upsert;
      UpsertNone(topo.nodes, target);
      row, ids := [0, 0, 0, 0], [];
      if hop.addr == "" {
        return;
      }
      var id := UpsertNode(hop.addr, ttl, target, false);
      row, ids := row[0 := id], [id];
      UpsertOne(old(topo.nodes), target, Req(hop.addr, ttl, false));
      ghost var done := [Req(hop.addr, ttl, false)];
      var a := 0;
      while a < |hop.aliases|
        invariant 0 <= a <= |hop.aliases| && |ids| == a + 1
        invariant Valid() && topo.edges == old(topo.edges)
        invariant done == [Req(hop.addr, ttl, false)] + AliasReqs(hop.aliases[..a], ttl)
        invariant (topo.nodes, ids) == UpsertAll(old(topo.nodes), target, done)
        invariant row == Pad(ids)
      {
        ghost var r := Req(hop.aliases[a], ttl, false);
        UpsertOne(topo.nodes, target, r);
        UpsertConcat(old(topo.nodes), target, done, [r]);
        id := UpsertNode(hop.aliases[a], ttl, target, false);
        row, ids, done := row[a + 1 := id], ids + [id], done + [r];
        a := a + 1;
      }
      assert hop.aliases[..a] == hop.aliases;
    }

    /** The edges out of one node. */
    method LinkNode(from: nat, next: seq<nat>, dest: nat)
      requires Valid() && |next| == ROW
      modifies this, edges
      ensures Valid() && topo.nodes == old(topo.nodes)
      ensures topo.edges == AddAll(old(topo.edges), FromNode(from, next, dest))
    {
      hide NodesHeld, EdgesHeld, Unique, AddEdge;
      ghost var es := topo.edges;
      AddAllOne(es, (from, dest));
      if from == 0 {
        return;
      }
      var anyNext := false;
      var d := 0;
      while d < ROW
        invariant 0 <= d <= ROW
        invariant Valid() && topo.nodes == old(topo.nodes)
        invariant topo.edges == AddAll(es, ToRow(from, next, d))
        invariant anyNext <==> ToRow(from, next, d) != []
      {
        assert ToRow(from, next, d) + [] == ToRow(from, next, d);
        if next[d] != 0 {
          AddAllOne(topo.edges, (from, next[d]));
          AddAllConcat(es, ToRow(from, next, d), [(from, next[d])]);
          InsertEdge(from, next[d]);
          anyNext := true;
        }
        d := d + 1;
      }
      assert ToRow(from, next, ROW) + [] == ToRow(from, next, ROW);
      if !anyNext && dest != 0 {
        AddAllConcat(es, ToRow(from, next, ROW), [(from, dest)]);
        InsertEdge(from, dest);
      }
    }

    method LinkRow(row: seq<nat>, next: seq<nat>, dest: nat)
      requires Valid() && |row| == ROW && |next| == ROW
      modifies this, edges
      ensures Valid() && topo.nodes == old(topo.nodes)
      ensures topo.edges == AddAll(old(topo.edges), FromRow(row, next, dest, ROW))
    {
      hide NodesHeld, EdgesHeld, Unique, AddEdge, FromNode;
      ghost var es := topo.edges;
      AddAllOne(es, (0, 0));
      var i := 0;
      while i < ROW
        invariant 0 <= i <= ROW
        invariant Valid() && topo.nodes == old(topo.nodes)
        invariant topo.edges == AddAll(es, FromRow(row, next, dest, i))
      {
        AddAllConcat(es, FromRow(row, next, dest, i), FromNode(row[i], next, dest));
        LinkNode(row[i], next, dest);
        i := i + 1;
      }
    }

    method LinkRows(rows: seq<seq<nat>>, dest: nat)
      requires Valid() && |rows| == MAX_HOPS && forall i :: 0 <= i < |rows| ==> |rows[i]| == ROW
      modifies this, edges
      ensures Valid() && topo.nodes == old(topo.nodes)
      ensures topo.edges == AddAll(old(topo.edges), FromRows(rows, dest, MAX_HOPS - 1))
    {
      hide NodesHeld, EdgesHeld, Unique, AddEdge, FromRow;
      ghost var es := topo.edges;
      AddAllOne(es, (0, 0));
      var i := 1;
      while i < MAX_HOPS - 1
        invariant 1 <= i <= MAX_HOPS - 1
        invariant Valid() && topo.nodes == old(topo.nodes)
        invariant topo.edges == AddAll(es, FromRows(rows, dest, i))
      {
        AddAllConcat(es, FromRows(rows, dest, i), FromRow(rows[i], rows[i + 1], dest, ROW));
        LinkRow(rows[i], rows[i + 1], dest);
        i := i + 1;
      }
    }

    method LinkLast(row: seq<nat>, dest: nat)
      requires Valid() && |row| == ROW
      modifies this, edges
      ensures Valid() && topo.nodes == old(topo.nodes)
      ensures topo.edges == AddAll(old(topo.edges), ToDestination(row, dest, ROW))
    {
      hide NodesHeld, EdgesHeld, Unique, AddEdge;
      ghost var es := topo.edges;
      AddAllOne(es, (0, 0));
      var i := 0;
      while i < ROW
        invariant 0 <= i <= ROW
        invariant Valid() && topo.nodes == old(topo.nodes)
        invariant topo.edges == AddAll(es, ToDestination(row, dest, i))
      {
        assert ToDestination(row, dest, i) + [] == ToDestination(row, dest, i);
        if row[i] != 0 && row[i] != dest {
          AddAllOne(topo.edges, (row[i], dest));
          AddAllConcat(es, ToDestination(row, dest, i), [(row[i], dest)]);
          InsertEdge(row[i], dest);
        }
        i := i + 1;
      }
    }

    /** The nodes of the whole snapshot. */
    method UpsertHops(snap: Snapshot) returns (rows: seq<seq<nat>>, ghost ids: seq<nat>)
      requires Valid() && WellFormed(snap)
      modifies this, nodes
      ensures Valid() && topo.edges == old(topo.edges)
      ensures (topo.nodes, ids) == UpsertAll(old(topo.nodes), snap.target, HopsReqs(snap.hops, MAX_HOPS))
      ensures rows == Rows(snap.hops, MAX_HOPS, ids)
    {
      hide NodesHeld, EdgesHeld, Unique, HopReqs, Pad;
      ghost var ns := topo.nodes;
      UpsertNone(ns, snap.target);
      EmptyRow(snap.hops);
      rows, ids := [[0, 0, 0, 0]], [];
      var i := 1;
      while i < MAX_HOPS
        invariant 1 <= i <= MAX_HOPS
        invariant Valid() && topo.edges == old(topo.edges)
        invariant (topo.nodes, ids) == UpsertAll(ns, snap.target, HopsReqs(snap.hops, i))
        invariant rows == Rows(snap.hops, i, ids)
      {
        ghost var before := topo.nodes;
        var row, more := UpsertHop(snap.hops[i], i, snap.target);
        UpsertConcat(ns, snap.target, HopsReqs(snap.hops, i), HopReqs(snap.hops[i], i));
        UpsertAllKeeps(before, snap.target, HopReqs(snap.hops[i], i));
        RowsStep(snap.hops, i, ids, more);
        rows, ids := rows + [row], ids + more;
        i := i + 1;
      }
    }

    method FindLastHop(rows: seq<seq<nat>>) returns (last: nat)
      requires |rows| == MAX_HOPS && forall i :: 0 <= i < |rows| ==> |rows[i]| == ROW
      ensures last == LastHop(rows, MAX_HOPS)
    {
      var i := MAX_HOPS - 1;
      while i >= 1
        invariant 0 <= i < MAX_HOPS
        invariant LastHop(rows, MAX_HOPS) == LastHop(rows, i + 1)
      {
        if rows[i][0] != 0 {
          return i;
        }
        i := i - 1;
      }
      return 0;
    }

    /** nsr_topology_update_from_telemetry: the store follows the value model. */
    method UpdateFromTelemetry(snap: Snapshot)
      requires Valid() && Good(topo) && WellFormed(snap)
      modifies this, nodes, edges
      ensures Valid() && Good(topo)
      ensures topo == Update(old(topo), snap)
    {
      UpdateKeepsGood(topo, snap);
      hide NodesHeld, EdgesHeld, Unique, Good, UpsertAll, Upsert, Rows, Pairs, LastHop, HopsReqs, Update, AddAll,
           FromRows, ToDestination, Settle;
      SettleNothing();
      NoTarget(topo, snap);
      if snap.target == "" {
        return;
      }
      ghost var before := topo;
      var dest := UpsertNode(snap.target, 0, snap.target, true);
      var rows, ids := UpsertHops(snap);
      SnapshotIds(before, snap, dest, topo.nodes, ids);
      SnapshotResult(before, snap, dest, topo.nodes, ids);
      RowWidths(snap, ids);
      LinkRows(rows, dest);
      var last := FindLastHop(rows);
      SnapshotEdges(before.edges, rows, dest);
      if last > 0 && dest != 0 {
        LinkLast(rows[last], dest);
        SettleDestination(dest, last);
      }
    }

    /** The destination sits one past the last hop. */
    method SettleDestination(dest: nat, last: nat)
      requires Valid() && 0 < dest <= |topo.nodes| && last > 0
      modifies `topo, nodes
      ensures Valid() && topo.edges == old(topo.edges)
      ensures topo.nodes == Settle(old(topo.nodes), dest, last)
    {
      var found, slot := NodeById(dest);
      SettleUnique(topo.nodes, dest, last);
      SlotHolds(nodes[..], topo.nodes, slot);
      var id := Refresh(slot, last + 1, nodes[slot].isDestination);
    }
  }

  // ----- the snapshot loops

  lemma RowsStep(hops: seq<HopSeen>, n: nat, ids: seq<nat>, more: seq<nat>)
    requires 1 <= n < |hops| && |more| == |HopReqs(hops[n], n)|
    ensures Rows(hops, n + 1, ids + more) == Rows(hops, n, ids) + [Pad(more)]
  {
    assert (ids + more)[..|ids|] == ids && (ids + more)[|ids|..] == more;
  }

  lemma SettleNothing()
    ensures forall ns, dest: nat, last: nat :: dest <= |ns| && (last == 0 || dest == 0) ==> Settle(ns, dest, last) == ns
  {
  }

  lemma NoTarget(t: Topo, snap: Snapshot)
    requires Good(t) && WellFormed(snap)
    ensures snap.target == "" ==> Update(t, snap) == t
  {
  }

  lemma EmptyRow(hops: seq<HopSeen>)
    requires |hops| >= 1
    ensures Rows(hops, 1, []) == [[0, 0, 0, 0]] && HopsReqs(hops, 1) == []
  {
    assert Pad([]) == [0, 0, 0, 0];
  }

  lemma RowWidths(snap: Snapshot, ids: seq<nat>)
    requires WellFormed(snap)
    ensures var rows := Rows(snap.hops, MAX_HOPS, ids);
            |rows| == MAX_HOPS && forall i :: 0 <= i < |rows| ==> |rows[i]| == ROW
  {
  }

  lemma SnapshotIds(t: Topo, snap: Snapshot, dest: nat, ns: seq<Node>, ids: seq<nat>)
    requires Good(t) && WellFormed(snap)
    requires var r := Req(snap.target, 0, true);
             && dest == Upsert(t.nodes, snap.target, r).1
             && (ns, ids) == UpsertAll(Upsert(t.nodes, snap.target, r).0, snap.target, HopsReqs(snap.hops, MAX_HOPS))
    ensures UpsertAll(t.nodes, snap.target, AllReqs(snap)) == (ns, [dest] + ids)
    ensures Unique(ns) && dest <= |ns| && ([dest] + ids)[1..] == ids
  {
    var r := Req(snap.target, 0, true);
    UpsertOne(t.nodes, snap.target, r);
    UpsertConcat(t.nodes, snap.target, [r], HopsReqs(snap.hops, MAX_HOPS));
    UpsertAllKeeps(t.nodes, snap.target, AllReqs(snap));
    hide UpsertAll, Upsert, Unique, HopsReqs;
    assert AllReqs(snap) == [r] + HopsReqs(snap.hops, MAX_HOPS);
    assert ([dest] + ids)[0] == dest;
  }

  /** What an update comes to once the snapshot's ids are known. */
  lemma SnapshotResult(t: Topo, snap: Snapshot, dest: nat, ns: seq<Node>, ids: seq<nat>)
    requires Good(t) && WellFormed(snap) && snap.target != "" && dest <= |ns|
    requires UpsertAll(t.nodes, snap.target, AllReqs(snap)) == (ns, [dest] + ids) && ([dest] + ids)[1..] == ids
    ensures var rows := Rows(snap.hops, MAX_HOPS, ids);
            Update(t, snap) == Topo(Settle(ns, dest, LastHop(rows, MAX_HOPS)), AddAll(t.edges, Pairs(rows, dest)))
  {
  }

  lemma SnapshotEdges(es: seq<Edge>, rows: seq<seq<nat>>, dest: nat)
    requires |rows| == MAX_HOPS && forall i :: 0 <= i < |rows| ==> |rows[i]| == ROW
    ensures var last := LastHop(rows, MAX_HOPS);
            AddAll(es, Pairs(rows, dest)) ==
            if last > 0 && dest != 0 then
              AddAll(AddAll(es, FromRows(rows, dest, MAX_HOPS - 1)), ToDestination(rows[last], dest, ROW))
            else AddAll(es, FromRows(rows, dest, MAX_HOPS - 1))
  {
    hide AddAll, FromRows, ToDestination, LastHop;
    var last := LastHop(rows, MAX_HOPS);
    var all := FromRows(rows, dest, MAX_HOPS - 1);
    if last > 0 && dest != 0 {
      AddAllConcat(es, all, ToDestination(rows[last], dest, ROW));
    } else {
      assert all + [] == all;
    }
  }

  lemma SettleUnique(ns: seq<Node>, dest: nat, last: nat)
    requires Unique(ns) && 0 < dest <= |ns| && last > 0
    ensures Unique(ns[dest - 1 := ns[dest - 1].(ttl := last + 1)])
    ensures Settle(ns, dest, last) == ns[dest - 1 := ns[dest - 1].(ttl := last + 1)]
  {
  }

  lemma FindUnique(ns: seq<Node>, i: nat, target: string, addr: string)
    requires Unique(ns) && i < |ns| && Matches(ns[i], target, addr)
    ensures Find(ns, target, addr) == i
  {
  }

  lemma NotFound(ns: seq<Node>, target: string, addr: string)
    requires |ns| <= MAX_NODES
    requires forall k :: 0 <= k < MAX_NODES && NodeOf(k) < |ns| ==> !Matches(ns[NodeOf(k)], target, addr)
    ensures Find(ns, target, addr) == |ns|
  {
    var i := Find(ns, target, addr);
    if i < |ns| {
      SlotOfNode(i);
    }
  }

  lemma SlotHolds(slots: seq<NodeSlot>, ns: seq<Node>, slot: nat)
    requires NodesHeld(slots, ns) && slot < MAX_NODES && NodeOf(slot) < |ns|
    ensures slots[slot] == Stored(ns[NodeOf(slot)], NodeOf(slot))
  {
  }
}
