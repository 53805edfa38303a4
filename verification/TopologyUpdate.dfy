/**
 One telemetry snapshot applied to the topology (src/state/topology.c:115-192): its nodes,
 its edges, what every application keeps, and that applying it twice is applying it once.
 */
module TopologyUpdate {
  import opened Topology

  // ----- the requests of a snapshot and the ids they got

  function AliasReqs(aliases: seq<string>, ttl: nat): seq<Req> {
    seq(|aliases|, i requires 0 <= i < |aliases| => Req(aliases[i], ttl, false))
  }

  function HopReqs(hop: HopSeen, ttl: nat): (r: seq<Req>)
    ensures |r| <= |hop.aliases| + 1
  {
    if hop.addr == "" then [] else [Req(hop.addr, ttl, false)] + AliasReqs(hop.aliases, ttl)
  }

  /** The requests of hops 1 to n - 1. */
  function HopsReqs(hops: seq<HopSeen>, n: nat): seq<Req>
    requires n <= |hops|
  {
    if n <= 1 then [] else HopsReqs(hops, n - 1) + HopReqs(hops[n - 1], n - 1)
  }

  /** A row of hop ids: those obtained, then zeros. */
  function Pad(ids: seq<nat>): (row: seq<nat>)
    ensures |row| == ROW
  {
    seq(ROW, i => if 0 <= i < |ids| then ids[i] else 0)
  }

  /** The table of hop ids for hops 0 to n - 1; row 0 stays empty. */
  function Rows(hops: seq<HopSeen>, n: nat, ids: seq<nat>): (rows: seq<seq<nat>>)
    requires n <= |hops|
    ensures |rows| == n && forall i :: 0 <= i < n ==> |rows[i]| == ROW
  {
    if n == 0 then []
    else if n == 1 then [Pad([])]
    else
      var len := |HopReqs(hops[n - 1], n - 1)|;
      var cut := if len <= |ids| then |ids| - len else 0;
      Rows(hops, n - 1, ids[..cut]) + [Pad(ids[cut..])]
  }

  // ----- edges

  function AddEdge(es: seq<Edge>, e: Edge): seq<Edge> {
    if e.0 == 0 || e.1 == 0 || e.0 == e.1 || |es| >= MAX_EDGES || e in es then es else es + [e]
  }

  function AddAll(es: seq<Edge>, pairs: seq<Edge>): seq<Edge> {
    if pairs == [] then es else AddEdge(AddAll(es, pairs[..|pairs| - 1]), pairs[|pairs| - 1])
  }

  /** From one node to each of the first n ids of the next row. */
  function ToRow(from: nat, row: seq<nat>, n: nat): seq<Edge>
    requires n <= |row|
  {
    if n == 0 then [] else ToRow(from, row, n - 1) + if row[n - 1] != 0 then [(from, row[n - 1])] else []
  }

  /** The edges out of one node of a hop: to the next hop, or to the destination. */
  function FromNode(from: nat, next: seq<nat>, dest: nat): seq<Edge> {
    if from == 0 then []
    else
      var es := ToRow(from, next, |next|);
      es + if es == [] && dest != 0 then [(from, dest)] else []
  }

  function FromRow(row: seq<nat>, next: seq<nat>, dest: nat, n: nat): seq<Edge>
    requires n <= |row|
  {
    if n == 0 then [] else FromRow(row, next, dest, n - 1) + FromNode(row[n - 1], next, dest)
  }

  /** The edges out of hops 1 to n - 1. */
  function FromRows(rows: seq<seq<nat>>, dest: nat, n: nat): seq<Edge>
    requires n < |rows| && forall i :: 0 <= i < |rows| ==> |rows[i]| == ROW
  {
    if n <= 1 then [] else FromRows(rows, dest, n - 1) + FromRow(rows[n - 1], rows[n], dest, ROW)
  }

  /** The last hop below n with a primary node, or 0. */
  function LastHop(rows: seq<seq<nat>>, n: nat): (last: nat)
    requires n <= |rows| && forall i :: 0 <= i < |rows| ==> |rows[i]| == ROW
    ensures last == 0 || (1 <= last < n && rows[last][0] != 0)
    ensures forall i :: last < i < n ==> rows[i][0] == 0
  {
    if n <= 1 then 0 else if rows[n - 1][0] != 0 then n - 1 else LastHop(rows, n - 1)
  }

  function ToDestination(row: seq<nat>, dest: nat, n: nat): seq<Edge>
    requires n <= |row|
  {
    if n == 0 then []
    else ToDestination(row, dest, n - 1) + if row[n - 1] != 0 && row[n - 1] != dest then [(row[n - 1], dest)] else []
  }

  function Pairs(rows: seq<seq<nat>>, dest: nat): seq<Edge>
    requires |rows| == MAX_HOPS && forall i :: 0 <= i < |rows| ==> |rows[i]| == ROW
  {
    var last := LastHop(rows, MAX_HOPS);
    FromRows(rows, dest, MAX_HOPS - 1) + if last > 0 && dest != 0 then ToDestination(rows[last], dest, ROW) else []
  }

  // ----- one snapshot

  function AllReqs(snap: Snapshot): seq<Req>
    requires WellFormed(snap)
  {
    [Req(snap.target, 0, true)] + HopsReqs(snap.hops, MAX_HOPS)
  }

  /** The new dest ttl is one past the last hop that answered. */
  function Settle(ns: seq<Node>, dest: nat, last: nat): seq<Node>
    requires dest <= |ns|
  {
    if last > 0 && dest != 0 then ns[dest - 1 := ns[dest - 1].(ttl := last + 1)] else ns
  }

  function Finish(ns: seq<Node>, es: seq<Edge>, snap: Snapshot, ids: seq<nat>): Topo
    requires WellFormed(snap) && ids != [] && ids[0] <= |ns|
  {
    var rows := Rows(snap.hops, MAX_HOPS, ids[1..]);
    Topo(Settle(ns, ids[0], LastHop(rows, MAX_HOPS)), AddAll(es, Pairs(rows, ids[0])))
  }

  /** A topology every update keeps: unique nodes, and edges that are distinct, join two
      different known nodes of one target, and fit the table. */
  ghost predicate Good(t: Topo) {
    Unique(t.nodes) && EdgesOk(t.nodes, t.edges)
  }

  ghost predicate EdgesOk(ns: seq<Node>, es: seq<Edge>) {
    && |es| <= MAX_EDGES
    && (forall i, j :: 0 <= i < j < |es| ==> es[i] != es[j])
    && forall i :: 0 <= i < |es| ==> EdgeOk(ns, es[i])
  }

  predicate EdgeOk(ns: seq<Node>, e: Edge) {
    && 0 < e.0 <= |ns| && 0 < e.1 <= |ns| && e.0 != e.1
    && ns[e.0 - 1].target == ns[e.1 - 1].target
  }

  function Update(t: Topo, snap: Snapshot): Topo
    requires Good(t) && WellFormed(snap)
  {
    if snap.target == "" then t
    else
      UpsertAllKeeps(t.nodes, snap.target, AllReqs(snap));
      var (ns, ids) := UpsertAll(t.nodes, snap.target, AllReqs(snap));
      Finish(ns, t.edges, snap, ids)
  }

  // ----- edges stay good

  ghost predicate IdsOk(ns: seq<Node>, target: string, ids: seq<nat>) {
    forall k :: 0 <= k < |ids| ==> IdOk(ns, target, ids[k])
  }

  predicate IdOk(ns: seq<Node>, target: string, id: nat) {
    id <= |ns| && (id > 0 ==> ns[id - 1].target == target)
  }

  ghost predicate PairsOk(ns: seq<Node>, target: string, pairs: seq<Edge>) {
    forall k :: 0 <= k < |pairs| ==> IdOk(ns, target, pairs[k].0) && IdOk(ns, target, pairs[k].1)
  }

  lemma {:induction false} ToRowOk(ns: seq<Node>, target: string, from: nat, row: seq<nat>, n: nat)
    requires n <= |row| && IdOk(ns, target, from) && IdsOk(ns, target, row)
    ensures PairsOk(ns, target, ToRow(from, row, n))
  {
    if n > 0 {
      ToRowOk(ns, target, from, row, n - 1);
    }
  }

  lemma {:induction false} FromRowOk(ns: seq<Node>, target: string, row: seq<nat>, next: seq<nat>, dest: nat, n: nat)
    requires n <= |row| && IdsOk(ns, target, row) && IdsOk(ns, target, next) && IdOk(ns, target, dest)
    ensures PairsOk(ns, target, FromRow(row, next, dest, n))
  {
    hide ToRow, IdOk;
    if n > 0 {
      FromRowOk(ns, target, row, next, dest, n - 1);
      ToRowOk(ns, target, row[n - 1], next, |next|);
    }
  }

  ghost predicate RowsOk(ns: seq<Node>, target: string, rows: seq<seq<nat>>) {
    forall i :: 0 <= i < |rows| ==> |rows[i]| == ROW && IdsOk(ns, target, rows[i])
  }

  lemma {:induction false} FromRowsOk(ns: seq<Node>, target: string, rows: seq<seq<nat>>, dest: nat, n: nat)
    requires n < |rows| && RowsOk(ns, target, rows) && IdOk(ns, target, dest)
    ensures PairsOk(ns, target, FromRows(rows, dest, n))
  {
    hide FromRow, IdOk, IdsOk;
    if n > 1 {
      FromRowsOk(ns, target, rows, dest, n - 1);
      FromRowOk(ns, target, rows[n - 1], rows[n], dest, ROW);
    }
  }

  lemma {:induction false} ToDestinationOk(ns: seq<Node>, target: string, row: seq<nat>, dest: nat, n: nat)
    requires n <= |row| && IdsOk(ns, target, row) && IdOk(ns, target, dest)
    ensures PairsOk(ns, target, ToDestination(row, dest, n))
  {
    if n > 0 {
      ToDestinationOk(ns, target, row, dest, n - 1);
    }
  }

  lemma PairsAreOk(ns: seq<Node>, target: string, rows: seq<seq<nat>>, dest: nat)
    requires |rows| == MAX_HOPS && RowsOk(ns, target, rows) && IdOk(ns, target, dest)
    ensures PairsOk(ns, target, Pairs(rows, dest))
  {
    hide FromRows, ToDestination, IdOk, IdsOk;
    FromRowsOk(ns, target, rows, dest, MAX_HOPS - 1);
    var last := LastHop(rows, MAX_HOPS);
    ToDestinationOk(ns, target, rows[last], dest, ROW);
  }

  lemma {:induction false} RowsAreOk(ns: seq<Node>, target: string, hops: seq<HopSeen>, n: nat, ids: seq<nat>)
    requires n <= |hops| && IdsOk(ns, target, ids)
    ensures RowsOk(ns, target, Rows(hops, n, ids))
  {
    hide HopReqs, IdOk, Pad;
    PadOk(ns, target, []);
    if n > 1 {
      var len := |HopReqs(hops[n - 1], n - 1)|;
      var cut := if len <= |ids| then |ids| - len else 0;
      RowsAreOk(ns, target, hops, n - 1, ids[..cut]);
      PadOk(ns, target, ids[cut..]);
    }
  }

  lemma PadOk(ns: seq<Node>, target: string, ids: seq<nat>)
    requires IdsOk(ns, target, ids)
    ensures IdsOk(ns, target, Pad(ids))
  {
  }

  lemma {:induction false} AddAllOk(ns: seq<Node>, target: string, es: seq<Edge>, pairs: seq<Edge>)
    requires EdgesOk(ns, es) && PairsOk(ns, target, pairs)
    ensures EdgesOk(ns, AddAll(es, pairs)) && es <= AddAll(es, pairs)
  {
    hide EdgesOk, AddEdge, IdOk;
    if pairs != [] {
      var n := |pairs| - 1;
      AddAllOk(ns, target, es, pairs[..n]);
      AddEdgeOk(ns, target, AddAll(es, pairs[..n]), pairs[n]);
    }
  }

  lemma AddEdgeOk(ns: seq<Node>, target: string, es: seq<Edge>, e: Edge)
    requires EdgesOk(ns, es) && IdOk(ns, target, e.0) && IdOk(ns, target, e.1)
    ensures EdgesOk(ns, AddEdge(es, e)) && es <= AddEdge(es, e)
  {
    NewEdgeOk(ns, target, e);
    hide IdOk, EdgeOk;
  }

  lemma NewEdgeOk(ns: seq<Node>, target: string, e: Edge)
    requires IdOk(ns, target, e.0) && IdOk(ns, target, e.1)
    ensures e.0 != 0 && e.1 != 0 && e.0 != e.1 ==> EdgeOk(ns, e)
  {
  }

  lemma EdgesOkExtended(ns: seq<Node>, ns': seq<Node>, es: seq<Edge>)
    requires EdgesOk(ns, es) && Extends(ns, ns')
    ensures EdgesOk(ns', es)
  {
    forall i | 0 <= i < |es|
      ensures EdgeOk(ns', es[i])
    {
      assert EdgeOk(ns, es[i]);
    }
  }

  // ----- what one snapshot keeps

  lemma SettleKeeps(ns: seq<Node>, dest: nat, last: nat)
    requires dest <= |ns| && Unique(ns)
    ensures Unique(Settle(ns, dest, last)) && Extends(ns, Settle(ns, dest, last))
  {
  }

  /** Every snapshot keeps a good topology good, never changes which address and target an id
      stands for, and only ever appends edges. */
  lemma UpdateKeepsGood(t: Topo, snap: Snapshot)
    requires Good(t) && WellFormed(snap)
    ensures Good(Update(t, snap)) && Extends(t.nodes, Update(t, snap).nodes) && t.edges <= Update(t, snap).edges
  {
    ExtendsSelf(t.nodes);
    hide Unique, EdgesOk, Extends, IdsOk, UpsertAll, Finish;
    if snap.target != "" {
      UpsertAllKeeps(t.nodes, snap.target, AllReqs(snap));
      var (ns, ids) := UpsertAll(t.nodes, snap.target, AllReqs(snap));
      IdsGiven(ns, snap.target, ids);
      FinishKeepsGood(t, ns, snap, ids);
    }
  }

  lemma IdsGiven(ns: seq<Node>, target: string, ids: seq<nat>)
    requires forall k :: 0 <= k < |ids| ==> ids[k] <= |ns|
    requires forall k :: 0 <= k < |ids| && ids[k] > 0 ==> ns[ids[k] - 1].target == target
    ensures IdsOk(ns, target, ids)
  {
  }

  lemma ExtendsSelf(ns: seq<Node>)
    ensures Extends(ns, ns)
  {
  }

  lemma FinishKeepsGood(t: Topo, ns: seq<Node>, snap: Snapshot, ids: seq<nat>)
    requires Good(t) && WellFormed(snap) && Unique(ns) && Extends(t.nodes, ns)
    requires ids != [] && IdsOk(ns, snap.target, ids)
    ensures var t' := Finish(ns, t.edges, snap, ids);
            Good(t') && Extends(t.nodes, t'.nodes) && t.edges <= t'.edges
  {
    var rows := Rows(snap.hops, MAX_HOPS, ids[1..]);
    assert IdsOk(ns, snap.target, ids[1..]) && IdOk(ns, snap.target, ids[0]);
    var last := LastHop(rows, MAX_HOPS);
    hide Unique, Rows, Pairs, AddAll, Settle, IdsOk, IdOk, EdgesOk, Extends;
    ExtendsTwice(t.nodes, ns, Settle(ns, ids[0], last));
    RowsAreOk(ns, snap.target, snap.hops, MAX_HOPS, ids[1..]);
    PairsAreOk(ns, snap.target, rows, ids[0]);
    EdgesOkExtended(t.nodes, ns, t.edges);
    AddAllOk(ns, snap.target, t.edges, Pairs(rows, ids[0]));
    SettleKeeps(ns, ids[0], last);
    EdgesOkExtended(ns, Settle(ns, ids[0], last), AddAll(t.edges, Pairs(rows, ids[0])));
  }

  lemma ExtendsTwice(a: seq<Node>, b: seq<Node>, c: seq<Node>)
    ensures Extends(a, b) && Extends(b, c) ==> Extends(a, c)
  {
  }

  // ----- applying a snapshot twice

  lemma {:induction false} AddAllContains(es: seq<Edge>, pairs: seq<Edge>, k: nat)
    requires k < |pairs|
    ensures AddEdge(AddAll(es, pairs), pairs[k]) == AddAll(es, pairs)
  {
    var n := |pairs| - 1;
    var before := AddAll(es, pairs[..n]);
    if k < n {
      AddAllContains(es, pairs[..n], k);
      AddedStays(before, pairs[n], pairs[k]);
    }
  }

  lemma AddedStays(es: seq<Edge>, e: Edge, f: Edge)
    requires AddEdge(es, f) == es
    ensures AddEdge(AddEdge(es, e), f) == AddEdge(es, e)
  {
    if e.0 != 0 && e.1 != 0 && e.0 != e.1 && |es| < MAX_EDGES && e !in es {
      assert f in es ==> f in es + [e];
      assert |es + [f]| != |es|;
    }
  }

  lemma {:induction false} AddAllAgain(es: seq<Edge>, pairs: seq<Edge>, n: nat)
    requires n <= |pairs|
    ensures AddAll(AddAll(es, pairs), pairs[..n]) == AddAll(es, pairs)
  {
    if n > 0 {
      AddAllAgain(es, pairs, n - 1);
      assert pairs[..n][..n - 1] == pairs[..n - 1];
      AddAllContains(es, pairs, n - 1);
    }
  }

  lemma SettleSameElsewhere(ns: seq<Node>, target: string, reqs: seq<Req>, dest: nat, last: nat)
    requires dest <= |ns| && (dest > 0 ==> Touched(ns[dest - 1], target, reqs))
    ensures SameElsewhere(Settle(ns, dest, last), ns, target, reqs)
  {
  }

  lemma FirstTouches(n: Node, target: string, reqs: seq<Req>)
    requires reqs != [] && Matches(n, target, reqs[0].addr)
    ensures Touched(n, target, reqs)
  {
  }

  lemma DestinationIsTouched(ns0: seq<Node>, snap: Snapshot)
    requires Unique(ns0) && WellFormed(snap)
    ensures var (ns, ids) := UpsertAll(ns0, snap.target, AllReqs(snap));
            ids != [] && ids[0] <= |ns| && (ids[0] > 0 ==> Touched(ns[ids[0] - 1], snap.target, AllReqs(snap)))
  {
    FirstIsTouched(ns0, snap.target, AllReqs(snap));
  }

  lemma FirstIsTouched(ns0: seq<Node>, target: string, reqs: seq<Req>)
    requires Unique(ns0) && reqs != []
    ensures var (ns, ids) := UpsertAll(ns0, target, reqs);
            ids != [] && ids[0] <= |ns| && (ids[0] > 0 ==> Touched(ns[ids[0] - 1], target, reqs))
  {
    hide UpsertAll, Upsert, Unique, Touched;
    UpsertStep(ns0, target, reqs[0]);
    UpsertAllCons(ns0, target, reqs);
    var (ns1, id) := Upsert(ns0, target, reqs[0]);
    UpsertAllKeeps(ns1, target, reqs[1..]);
    var ns := UpsertAll(ns0, target, reqs).0;
    if id > 0 {
      assert Matches(ns[id - 1], target, reqs[0].addr);
      FirstTouches(ns[id - 1], target, reqs);
    }
  }

  /** Applying the same snapshot again changes nothing: identities, TTLs, destination flags and
      edges are as after the first time, even when a table filled up part-way. */
  lemma UpdateIsIdempotent(t: Topo, snap: Snapshot)
    requires Good(t) && WellFormed(snap)
    ensures Good(Update(t, snap)) && Update(Update(t, snap), snap) == Update(t, snap)
  {
    UpdateKeepsGood(t, snap);
    hide Update, Good;
    if snap.target == "" {
      NothingToDo(t, snap);
    } else {
      UpdateAgain(t, snap);
    }
  }

  lemma NothingToDo(t: Topo, snap: Snapshot)
    requires Good(t) && WellFormed(snap) && snap.target == ""
    ensures Update(t, snap) == t
  {
  }

  lemma UpdateAgain(t: Topo, snap: Snapshot)
    requires Good(t) && WellFormed(snap) && snap.target != "" && Good(Update(t, snap))
    ensures Update(Update(t, snap), snap) == Update(t, snap)
  {
    hide Rows, Pairs, AddAll, LastHop, Settle, UpsertAll, SameElsewhere, Touched;
    var reqs := AllReqs(snap);
    UpsertAllKeeps(t.nodes, snap.target, reqs);
    DestinationIsTouched(t.nodes, snap);
    var (ns, ids) := UpsertAll(t.nodes, snap.target, reqs);
    var rows := Rows(snap.hops, MAX_HOPS, ids[1..]);
    var last, pairs := LastHop(rows, MAX_HOPS), Pairs(rows, ids[0]);
    SettleSameElsewhere(ns, snap.target, reqs, ids[0], last);
    Rerun(t.nodes, snap.target, reqs, Settle(ns, ids[0], last));
    SettleLength(ns, ids[0], last);
    AddAllAgain(t.edges, pairs, |pairs|);
    assert pairs[..|pairs|] == pairs;
  }

  lemma SettleLength(ns: seq<Node>, dest: nat, last: nat)
    requires dest <= |ns|
    ensures |Settle(ns, dest, last)| == |ns|
  {
  }

  // ----- every sequence of snapshots

  function UpdateAll(t: Topo, snaps: seq<Snapshot>): (r: Topo)
    requires Good(t) && forall i :: 0 <= i < |snaps| ==> WellFormed(snaps[i])
    ensures Good(r)
  {
    if snaps == [] then t
    else
      var before := UpdateAll(t, snaps[..|snaps| - 1]);
      UpdateKeepsGood(before, snaps[|snaps| - 1]);
      Update(before, snaps[|snaps| - 1])
  }

  /** From the empty topology on, over every sequence of snapshots: an id keeps its address
      and target for ever, (address, target) pairs stay unique, and the edges stay distinct,
      loop-free, within one target, and never disappear. */
  lemma {:induction false} RunKeepsBindings(t: Topo, snaps: seq<Snapshot>, n: nat)
    requires Good(t) && n <= |snaps| && forall i :: 0 <= i < |snaps| ==> WellFormed(snaps[i])
    ensures Good(UpdateAll(t, snaps))
    ensures Extends(UpdateAll(t, snaps[..n]).nodes, UpdateAll(t, snaps).nodes)
    ensures UpdateAll(t, snaps[..n]).edges <= UpdateAll(t, snaps).edges
  {
    hide Good, Update;
    if n == |snaps| {
      assert snaps[..n] == snaps;
    } else {
      var prefix := snaps[..|snaps| - 1];
      RunKeepsBindings(t, prefix, n);
      assert prefix[..n] == snaps[..n];
      UpdateKeepsGood(UpdateAll(t, prefix), snaps[|snaps| - 1]);
    }
  }
}
