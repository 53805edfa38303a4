/**
 What one snapshot does to the graph, on addresses and hop numbers: which edges it adds and which
 TTLs its nodes get (src/state/topology.c:115-192).
 */
module TopologyEdges {
  import opened Topology
  import opened TopologyUpdate

  /** The addresses a hop answered from: none without a primary one. */
  function Addrs(hop: HopSeen): seq<string> {
    if hop.addr == "" then [] else [hop.addr] + hop.aliases
  }

  /** The id of an address under a target; 0 when it has no node. */
  function IdOf(ns: seq<Node>, target: string, addr: string): nat {
    var i := Find(ns, target, addr);
    if i < |ns| then i + 1 else 0
  }

  lemma IdOfNode(ns: seq<Node>, target: string, addr: string, i: nat)
    requires Unique(ns) && i < |ns| && Matches(ns[i], target, addr)
    ensures IdOf(ns, target, addr) == i + 1
  {
  }

  lemma IdOfNone(ns: seq<Node>, target: string, addr: string)
    ensures (forall j :: 0 <= j < |ns| ==> !Matches(ns[j], target, addr)) ==> IdOf(ns, target, addr) == 0
    ensures Unique(ns) ==> IdOf(ns, target, "") == 0
  {
  }

  lemma SameIds(a: seq<Node>, b: seq<Node>, target: string, addr: string)
    requires Unique(a) && Unique(b) && Extends(a, b) && |a| == |b|
    ensures IdOf(a, target, addr) == IdOf(b, target, addr)
  {
    var i := Find(a, target, addr);
    if i < |a| {
      IdOfNode(b, target, addr, i);
    } else {
      assert forall j :: 0 <= j < |b| ==> !Matches(a[j], target, addr);
      IdOfNone(b, target, addr);
    }
  }

  // ----- the ids the requests get

  lemma OneId(ns: seq<Node>, target: string, r: Req, ns': seq<Node>)
    requires Unique(ns) && Unique(ns') && target != ""
    requires Extends(Upsert(ns, target, r).0, ns')
    ensures Upsert(ns, target, r).1 == IdOf(ns', target, r.addr)
  {
    hide Upsert, IdOf;
    UpsertStep(ns, target, r);
    var (ns1, id) := Upsert(ns, target, r);
    if id > 0 {
      IdOfNode(ns', target, r.addr, id - 1);
    } else if r.addr == "" {
      IdOfNone(ns', target, "");
    } else {
      assert forall j :: 0 <= j < |ns'| ==> !Matches(ns[j], target, r.addr);
      IdOfNone(ns', target, r.addr);
    }
  }

  lemma {:induction false} IdsAre(ns: seq<Node>, target: string, reqs: seq<Req>)
    requires Unique(ns) && target != ""
    ensures var (ns', ids) := UpsertAll(ns, target, reqs);
            |ids| == |reqs| && forall k :: 0 <= k < |reqs| ==> ids[k] == IdOf(ns', target, reqs[k].addr)
    decreases |reqs|
  {
    hide Upsert, UpsertAll, Unique, IdOf, Extends;
    if reqs == [] {
      UpsertNone(ns, target);
    } else {
      UpsertAllCons(ns, target, reqs);
      UpsertStep(ns, target, reqs[0]);
      UpsertAllKeeps(ns, target, reqs);
      var (ns1, id) := Upsert(ns, target, reqs[0]);
      UpsertAllKeeps(ns1, target, reqs[1..]);
      OneId(ns, target, reqs[0], UpsertAll(ns, target, reqs).0);
      IdsAre(ns1, target, reqs[1..]);
    }
  }

  // ----- the rows of ids

  function Ids(ns: seq<Node>, target: string, addrs: seq<string>): seq<nat> {
    seq(|addrs|, k requires 0 <= k < |addrs| => IdOf(ns, target, addrs[k]))
  }

  /** The addresses of hops 1 to n - 1. */
  function HopsAddrs(hops: seq<HopSeen>, n: nat): seq<string>
    requires n <= |hops|
  {
    if n <= 1 then [] else HopsAddrs(hops, n - 1) + Addrs(hops[n - 1])
  }

  lemma HopAddrs(hop: HopSeen, ttl: nat)
    ensures |HopReqs(hop, ttl)| == |Addrs(hop)|
    ensures forall k :: 0 <= k < |Addrs(hop)| ==>
                          HopReqs(hop, ttl)[k].addr == Addrs(hop)[k] && HopReqs(hop, ttl)[k].ttl == ttl
  {
  }

  lemma {:induction false} ReqAddrs(hops: seq<HopSeen>, n: nat)
    requires n <= |hops|
    ensures |HopsReqs(hops, n)| == |HopsAddrs(hops, n)|
    ensures forall k :: 0 <= k < |HopsAddrs(hops, n)| ==> HopsReqs(hops, n)[k].addr == HopsAddrs(hops, n)[k]
  {
    hide HopReqs, Addrs;
    if n > 1 {
      ReqAddrs(hops, n - 1);
      HopAddrs(hops[n - 1], n - 1);
    }
  }

  lemma {:induction false} RowsAre(ns: seq<Node>, target: string, hops: seq<HopSeen>, n: nat)
    requires n <= |hops|
    ensures var rows := Rows(hops, n, Ids(ns, target, HopsAddrs(hops, n)));
            |rows| == n && forall i :: 1 <= i < n ==> rows[i] == Pad(Ids(ns, target, Addrs(hops[i])))
  {
    hide IdOf, Addrs, HopReqs, Pad;
    if n > 1 {
      RowsAre(ns, target, hops, n - 1);
      HopAddrs(hops[n - 1], n - 1);
      var before, last := HopsAddrs(hops, n - 1), Addrs(hops[n - 1]);
      var ids := Ids(ns, target, before + last);
      assert ids[..|before|] == Ids(ns, target, before) && ids[|before|..] == Ids(ns, target, last);
    }
  }

  /** Some address of the hop has this node. */
  ghost predicate InHop(ns: seq<Node>, target: string, hop: HopSeen, id: nat) {
    id != 0 && exists k :: 0 <= k < |Addrs(hop)| && IdOf(ns, target, Addrs(hop)[k]) == id
  }

  ghost predicate InRow(row: seq<nat>, id: nat) {
    id != 0 && exists k :: 0 <= k < |row| && row[k] == id
  }

  lemma RowIsHop(ns: seq<Node>, target: string, hop: HopSeen, id: nat)
    requires |hop.aliases| < ROW
    ensures InRow(Pad(Ids(ns, target, Addrs(hop))), id) <==> InHop(ns, target, hop, id)
    ensures Unique(ns) ==> Pad(Ids(ns, target, Addrs(hop)))[0] == IdOf(ns, target, hop.addr)
  {
    hide IdOf;
    var addrs := Addrs(hop);
    var row := Pad(Ids(ns, target, addrs));
    assert |addrs| <= ROW && forall k :: 0 <= k < |addrs| ==> row[k] == IdOf(ns, target, addrs[k]);
    if InHop(ns, target, hop, id) {
      var k :| 0 <= k < |addrs| && IdOf(ns, target, addrs[k]) == id;
      assert row[k] == id;
    }
    IdOfNone(ns, target, "");
  }

  // ----- which pairs are offered

  lemma {:induction false} ToRowHas(from: nat, row: seq<nat>, n: nat, e: Edge)
    requires n <= |row|
    ensures e in ToRow(from, row, n) <==> e.0 == from && InRow(row[..n], e.1)
  {
    if n > 0 {
      ToRowHas(from, row, n - 1, e);
      InRowSnoc(row, n, e.1);
    }
  }

  lemma InRowSnoc(row: seq<nat>, n: nat, id: nat)
    requires 0 < n <= |row|
    ensures InRow(row[..n], id) <==> InRow(row[..n - 1], id) || (id != 0 && row[n - 1] == id)
  {
    if InRow(row[..n - 1], id) {
      var k :| 0 <= k < n - 1 && row[..n - 1][k] == id;
      assert row[..n][k] == id;
    }
    if id != 0 && row[n - 1] == id {
      assert row[..n][n - 1] == id;
    }
  }

  ghost predicate EmptyRow(row: seq<nat>) {
    forall id :: !InRow(row, id)
  }

  /** Edges out of one node: to every node of the next row, or to the destination when it has none. */
  ghost predicate Onward(from: nat, next: seq<nat>, dest: nat, e: Edge) {
    from != 0 && e.0 == from && (InRow(next, e.1) || (EmptyRow(next) && dest != 0 && e.1 == dest))
  }

  lemma FromNodeHas(from: nat, next: seq<nat>, dest: nat, e: Edge)
    ensures e in FromNode(from, next, dest) <==> Onward(from, next, dest, e)
  {
    hide ToRow, InRow;
    assert next[..|next|] == next;
    if from != 0 {
      ToRowHas(from, next, |next|, e);
      var es := ToRow(from, next, |next|);
      if es == [] {
        forall id
          ensures !InRow(next, id)
        {
          ToRowHas(from, next, |next|, (from, id));
        }
      } else {
        ToRowHas(from, next, |next|, es[0]);
        assert InRow(next, es[0].1);
      }
    }
  }

  lemma {:induction false} FromRowHas(row: seq<nat>, next: seq<nat>, dest: nat, n: nat, e: Edge)
    requires n <= |row|
    ensures e in FromRow(row, next, dest, n) <==> InRow(row[..n], e.0) && Onward(e.0, next, dest, e)
  {
    hide FromNode, InRow, EmptyRow;
    if n > 0 {
      FromRowHas(row, next, dest, n - 1, e);
      FromNodeHas(row[n - 1], next, dest, e);
      InRowSnoc(row, n, e.0);
    } else {
      NotInNothing(e.0);
      assert row[..0] == [];
    }
  }

  lemma NotInNothing(id: nat)
    ensures !InRow([], id)
  {
  }

  ghost predicate FromHop(rows: seq<seq<nat>>, dest: nat, i: nat, e: Edge)
    requires i + 1 < |rows|
  {
    InRow(rows[i], e.0) && Onward(e.0, rows[i + 1], dest, e)
  }

  lemma {:induction false} FromRowsHas(rows: seq<seq<nat>>, dest: nat, n: nat, e: Edge)
    requires n < |rows| && forall i :: 0 <= i < |rows| ==> |rows[i]| == ROW
    ensures e in FromRows(rows, dest, n) <==> exists i :: 1 <= i < n && FromHop(rows, dest, i, e)
  {
    hide FromRow, InRow, Onward;
    if n > 1 {
      FromRowsHas(rows, dest, n - 1, e);
      FromRowHas(rows[n - 1], rows[n], dest, ROW, e);
      assert rows[n - 1][..ROW] == rows[n - 1];
      assert FromHop(rows, dest, n - 1, e) <==> e in FromRow(rows[n - 1], rows[n], dest, ROW);
    }
  }

  lemma {:induction false} ToDestinationHas(row: seq<nat>, dest: nat, n: nat, e: Edge)
    requires n <= |row|
    ensures e in ToDestination(row, dest, n) <==> InRow(row[..n], e.0) && e.0 != dest && e.1 == dest
  {
    if n > 0 {
      ToDestinationHas(row, dest, n - 1, e);
      InRowSnoc(row, n, e.0);
    }
  }

  // ----- which of them become edges

  predicate Joins(e: Edge) {
    e.0 != 0 && e.1 != 0 && e.0 != e.1
  }

  lemma {:induction false} AddAllHas(es: seq<Edge>, pairs: seq<Edge>, e: Edge)
    ensures e in AddAll(es, pairs) ==> e in es || (e in pairs && Joins(e))
    ensures |AddAll(es, pairs)| >= |es|
    ensures |AddAll(es, pairs)| < MAX_EDGES && (e in es || (e in pairs && Joins(e))) ==> e in AddAll(es, pairs)
  {
    if pairs != [] {
      AddAllHas(es, pairs[..|pairs| - 1], e);
    }
  }

  // ----- in terms of addresses

  ghost predicate Silent(ns: seq<Node>, target: string, hop: HopSeen) {
    forall id :: !InHop(ns, target, hop, id)
  }

  /** The last hop whose primary address has a node. */
  ghost predicate LastAnswering(ns: seq<Node>, snap: Snapshot, i: nat)
    requires WellFormed(snap)
  {
    && 1 <= i < MAX_HOPS && IdOf(ns, snap.target, snap.hops[i].addr) != 0
    && forall j :: i < j < MAX_HOPS ==> IdOf(ns, snap.target, snap.hops[j].addr) == 0
  }

  /** From hop i to the next hop, or to the destination when the next hop has no node. */
  ghost predicate Step(ns: seq<Node>, snap: Snapshot, i: nat, e: Edge)
    requires WellFormed(snap) && i + 1 < MAX_HOPS
  {
    var x := snap.target;
    && InHop(ns, x, snap.hops[i], e.0)
    && (InHop(ns, x, snap.hops[i + 1], e.1) || (Silent(ns, x, snap.hops[i + 1]) && e.1 == IdOf(ns, x, x)))
  }

  /** From the last answering hop to the destination. */
  ghost predicate Arrival(ns: seq<Node>, snap: Snapshot, i: nat, e: Edge)
    requires WellFormed(snap)
  {
    && LastAnswering(ns, snap, i)
    && InHop(ns, snap.target, snap.hops[i], e.0) && e.1 == IdOf(ns, snap.target, snap.target)
  }

  /** The edges a snapshot asks for. */
  ghost predicate Due(ns: seq<Node>, snap: Snapshot, e: Edge)
    requires WellFormed(snap)
  {
    && Joins(e)
    && (|| (exists i :: 1 <= i <= 62 && Step(ns, snap, i, e))
        || (exists i :: Arrival(ns, snap, i, e)))
  }

  predicate Table(rows: seq<seq<nat>>) {
    |rows| == MAX_HOPS && forall i :: 0 <= i < |rows| ==> |rows[i]| == ROW
  }

  /** The table of ids is the table of the addresses' ids. */
  ghost predicate RowsMatch(ns: seq<Node>, snap: Snapshot, rows: seq<seq<nat>>)
    requires WellFormed(snap) && Table(rows)
  {
    && (forall i, id :: 1 <= i < MAX_HOPS ==> (InRow(rows[i], id) <==> InHop(ns, snap.target, snap.hops[i], id)))
    && (forall i :: 1 <= i < MAX_HOPS ==> rows[i][0] == IdOf(ns, snap.target, snap.hops[i].addr))
  }

  lemma StepIsFromHop(ns: seq<Node>, snap: Snapshot, rows: seq<seq<nat>>, i: nat, e: Edge)
    requires WellFormed(snap) && Table(rows) && RowsMatch(ns, snap, rows) && 1 <= i <= 62 && Joins(e)
    ensures FromHop(rows, IdOf(ns, snap.target, snap.target), i, e) <==> Step(ns, snap, i, e)
  {
    hide IdOf, InRow, InHop;
    assert EmptyRow(rows[i + 1]) <==> Silent(ns, snap.target, snap.hops[i + 1]);
  }

  lemma LastIsLast(ns: seq<Node>, snap: Snapshot, rows: seq<seq<nat>>, i: nat)
    requires WellFormed(snap) && Table(rows) && RowsMatch(ns, snap, rows)
    ensures LastAnswering(ns, snap, i) <==> i > 0 && i == LastHop(rows, MAX_HOPS)
  {
    hide IdOf, InRow, InHop;
  }

  lemma PairsAreDue(ns: seq<Node>, snap: Snapshot, rows: seq<seq<nat>>, e: Edge)
    requires WellFormed(snap) && Table(rows) && RowsMatch(ns, snap, rows) && Joins(e)
    ensures e in Pairs(rows, IdOf(ns, snap.target, snap.target)) <==> Due(ns, snap, e)
  {
    hide IdOf, FromRows, ToDestination, FromHop, Step, InRow, InHop, LastAnswering, RowsMatch;
    var dest := IdOf(ns, snap.target, snap.target);
    FromRowsHas(rows, dest, MAX_HOPS - 1, e);
    forall i | 1 <= i <= 62
      ensures FromHop(rows, dest, i, e) <==> Step(ns, snap, i, e)
    {
      StepIsFromHop(ns, snap, rows, i, e);
    }
    ArrivalIsLast(ns, snap, rows, e);
  }

  lemma ArrivalIsLast(ns: seq<Node>, snap: Snapshot, rows: seq<seq<nat>>, e: Edge)
    requires WellFormed(snap) && Table(rows) && RowsMatch(ns, snap, rows) && Joins(e)
    ensures var last, dest := LastHop(rows, MAX_HOPS), IdOf(ns, snap.target, snap.target);
            (last > 0 && dest != 0 && e in ToDestination(rows[last], dest, ROW)) <==>
            exists i :: Arrival(ns, snap, i, e)
  {
    hide IdOf, InRow, InHop, LastAnswering, ToDestination, RowsMatch;
    var last, dest := LastHop(rows, MAX_HOPS), IdOf(ns, snap.target, snap.target);
    LastIsLast(ns, snap, rows, last);
    if last > 0 {
      ToDestinationHas(rows[last], dest, ROW, e);
      assert rows[last][..ROW] == rows[last];
      MatchAt(ns, snap, rows, last, e.0);
      assert Arrival(ns, snap, last, e) <==> InHop(ns, snap.target, snap.hops[last], e.0) && e.1 == dest;
    }
    if i :| Arrival(ns, snap, i, e) {
      LastIsLast(ns, snap, rows, i);
    }
  }

  lemma MatchAt(ns: seq<Node>, snap: Snapshot, rows: seq<seq<nat>>, i: nat, id: nat)
    requires WellFormed(snap) && Table(rows) && RowsMatch(ns, snap, rows) && 1 <= i < MAX_HOPS
    ensures InRow(rows[i], id) <==> InHop(ns, snap.target, snap.hops[i], id)
  {
  }

  // ----- one snapshot

  lemma SnapshotRows(ns0: seq<Node>, snap: Snapshot)
    requires Unique(ns0) && WellFormed(snap) && snap.target != ""
    ensures var (ns, ids) := UpsertAll(ns0, snap.target, AllReqs(snap));
            && ids != [] && ids[0] == IdOf(ns, snap.target, snap.target)
            && Table(Rows(snap.hops, MAX_HOPS, ids[1..])) && RowsMatch(ns, snap, Rows(snap.hops, MAX_HOPS, ids[1..]))
  {
    hide UpsertAll, IdOf, HopsReqs, HopsAddrs, Rows, InHop, InRow, Addrs, Pad;
    var x, reqs := snap.target, HopsReqs(snap.hops, MAX_HOPS);
    IdsAre(ns0, x, AllReqs(snap));
    UpsertAllKeeps(ns0, x, AllReqs(snap));
    var (ns, ids) := UpsertAll(ns0, x, AllReqs(snap));
    assert AllReqs(snap)[0].addr == x && forall k :: 0 <= k < |reqs| ==> AllReqs(snap)[k + 1] == reqs[k];
    ReqAddrs(snap.hops, MAX_HOPS);
    assert ids[1..] == Ids(ns, x, HopsAddrs(snap.hops, MAX_HOPS));
    RowsAre(ns, x, snap.hops, MAX_HOPS);
    RowsMatchHops(ns, snap, Rows(snap.hops, MAX_HOPS, ids[1..]));
  }

  lemma RowsMatchHops(ns: seq<Node>, snap: Snapshot, rows: seq<seq<nat>>)
    requires WellFormed(snap) && Unique(ns) && Table(rows)
    requires forall i :: 1 <= i < MAX_HOPS ==> rows[i] == Pad(Ids(ns, snap.target, Addrs(snap.hops[i])))
    ensures RowsMatch(ns, snap, rows)
  {
    hide IdOf, Pad, Addrs, InHop, InRow, Unique;
    forall i, id | 1 <= i < MAX_HOPS
      ensures InRow(rows[i], id) <==> InHop(ns, snap.target, snap.hops[i], id)
    {
      RowIsHop(ns, snap.target, snap.hops[i], id);
    }
    forall i | 1 <= i < MAX_HOPS
      ensures rows[i][0] == IdOf(ns, snap.target, snap.hops[i].addr)
    {
      RowIsHop(ns, snap.target, snap.hops[i], 0);
    }
  }

  /** The nodes of a snapshot before the destination's TTL is settled. */
  function Named(t: Topo, snap: Snapshot): seq<Node>
    requires WellFormed(snap)
  {
    UpsertAll(t.nodes, snap.target, AllReqs(snap)).0
  }

  lemma EdgesAre(t: Topo, snap: Snapshot, e: Edge)
    requires Good(t) && WellFormed(snap) && snap.target != "" && Joins(e)
    ensures e in Update(t, snap).edges ==> e in t.edges || Due(Named(t, snap), snap, e)
    ensures e in t.edges || Due(Named(t, snap), snap, e) ==>
              e in Update(t, snap).edges || |Update(t, snap).edges| >= MAX_EDGES
  {
    hide UpsertAll, Unique, Pairs, AddAll, EdgesOk, Due, IdOf, RowsMatch, AllReqs, Rows, Joins, Settle;
    SnapshotRows(t.nodes, snap);
    UpsertAllKeeps(t.nodes, snap.target, AllReqs(snap));
    var (ns, ids) := UpsertAll(t.nodes, snap.target, AllReqs(snap));
    var rows := Rows(snap.hops, MAX_HOPS, ids[1..]);
    AddAllHas(t.edges, Pairs(rows, ids[0]), e);
    PairsAreDue(ns, snap, rows, e);
  }

  lemma SettledNodes(t: Topo, snap: Snapshot)
    requires Good(t) && WellFormed(snap) && snap.target != ""
    ensures var ns, ns' := Named(t, snap), Update(t, snap).nodes;
            && Unique(ns) && Unique(ns') && Extends(ns, ns') && |ns| == |ns'|
            && (forall j :: 0 <= j < |ns| && j + 1 != IdOf(ns, snap.target, snap.target) ==> ns'[j].ttl == ns[j].ttl)
  {
    hide UpsertAll, Unique, Pairs, AddAll, EdgesOk, IdOf, RowsMatch, AllReqs, Rows, Extends;
    SnapshotRows(t.nodes, snap);
    UpsertAllKeeps(t.nodes, snap.target, AllReqs(snap));
    var (ns, ids) := UpsertAll(t.nodes, snap.target, AllReqs(snap));
    var last := LastHop(Rows(snap.hops, MAX_HOPS, ids[1..]), MAX_HOPS);
    SettleKeeps(ns, ids[0], last);
    SettleLength(ns, ids[0], last);
  }

  lemma SettledTtl(t: Topo, snap: Snapshot, i: nat)
    requires Good(t) && WellFormed(snap) && snap.target != "" && LastAnswering(Named(t, snap), snap, i)
    ensures var ns, ns' := Named(t, snap), Update(t, snap).nodes; var dest := IdOf(ns, snap.target, snap.target);
            dest <= |ns'| && (dest != 0 ==> ns'[dest - 1].ttl == i + 1)
  {
    hide UpsertAll, Unique, Pairs, AddAll, EdgesOk, IdOf, RowsMatch, AllReqs, Rows, Extends, LastAnswering;
    SnapshotRows(t.nodes, snap);
    UpsertAllKeeps(t.nodes, snap.target, AllReqs(snap));
    var (ns, ids) := UpsertAll(t.nodes, snap.target, AllReqs(snap));
    var rows := Rows(snap.hops, MAX_HOPS, ids[1..]);
    LastIsLast(ns, snap, rows, i);
    SettleLength(ns, ids[0], LastHop(rows, MAX_HOPS));
  }

  /** Whoever has a node with an id before has it after. */
  lemma SameDue(ns: seq<Node>, ns': seq<Node>, snap: Snapshot, e: Edge)
    requires WellFormed(snap) && forall addr :: IdOf(ns, snap.target, addr) == IdOf(ns', snap.target, addr)
    ensures Due(ns, snap, e) == Due(ns', snap, e)
    ensures forall i :: LastAnswering(ns, snap, i) == LastAnswering(ns', snap, i)
  {
    hide IdOf;
    forall i | 1 <= i < MAX_HOPS
      ensures forall id :: InHop(ns, snap.target, snap.hops[i], id) == InHop(ns', snap.target, snap.hops[i], id)
      ensures Silent(ns, snap.target, snap.hops[i]) == Silent(ns', snap.target, snap.hops[i])
    {
      SameHop(ns, ns', snap.target, snap.hops[i]);
    }
    hide InHop, Silent;
    assert forall i :: 1 <= i <= 62 ==> Step(ns, snap, i, e) == Step(ns', snap, i, e);
    assert forall i :: Arrival(ns, snap, i, e) == Arrival(ns', snap, i, e);
  }

  lemma SameHop(ns: seq<Node>, ns': seq<Node>, target: string, hop: HopSeen)
    requires forall addr :: IdOf(ns, target, addr) == IdOf(ns', target, addr)
    ensures forall id :: InHop(ns, target, hop, id) == InHop(ns', target, hop, id)
    ensures Silent(ns, target, hop) == Silent(ns', target, hop)
  {
    hide IdOf;
  }

  lemma AllIdsSame(t: Topo, snap: Snapshot)
    requires Good(t) && WellFormed(snap) && snap.target != ""
    ensures forall addr :: IdOf(Named(t, snap), snap.target, addr) == IdOf(Update(t, snap).nodes, snap.target, addr)
  {
    hide IdOf, Unique, Extends;
    SettledNodes(t, snap);
    forall addr
      ensures IdOf(Named(t, snap), snap.target, addr) == IdOf(Update(t, snap).nodes, snap.target, addr)
    {
      SameIds(Named(t, snap), Update(t, snap).nodes, snap.target, addr);
    }
  }

  /** Which edges a snapshot adds: only those due, and all of them as long as the table has room. */
  lemma EdgesOfSnapshot(t: Topo, snap: Snapshot, e: Edge)
    requires Good(t) && WellFormed(snap) && snap.target != ""
    ensures var t' := Update(t, snap);
            && (e in t'.edges && e !in t.edges ==> Due(t'.nodes, snap, e))
            && (Due(t'.nodes, snap, e) && |t'.edges| < MAX_EDGES ==> e in t'.edges)
  {
    hide IdOf, Unique, Extends, Due, Update, LastAnswering, Named;
    AllIdsSame(t, snap);
    SameDue(Named(t, snap), Update(t, snap).nodes, snap, e);
    UpdateKeepsGood(t, snap);
    GoodEdgesJoin(Update(t, snap), e);
    DueJoins(Named(t, snap), snap, e);
    if Joins(e) {
      EdgesAre(t, snap, e);
    }
  }

  lemma GoodEdgesJoin(t: Topo, e: Edge)
    requires Good(t)
    ensures e in t.edges ==> Joins(e)
  {
  }

  lemma DueJoins(ns: seq<Node>, snap: Snapshot, e: Edge)
    requires WellFormed(snap)
    ensures Due(ns, snap, e) ==> Joins(e)
  {
  }

  /** The destination's TTL is one past the last answering hop. */
  lemma DestinationTtl(t: Topo, snap: Snapshot, i: nat, j: nat)
    requires Good(t) && WellFormed(snap) && snap.target != ""
    requires LastAnswering(Update(t, snap).nodes, snap, i)
    requires j < |Update(t, snap).nodes| && Matches(Update(t, snap).nodes[j], snap.target, snap.target)
    ensures Update(t, snap).nodes[j].ttl == i + 1
  {
    hide IdOf, Unique, Extends, LastAnswering, Update, Named, Due;
    AllIdsSame(t, snap);
    SameDue(Named(t, snap), Update(t, snap).nodes, snap, (0, 0));
    SettledNodes(t, snap);
    SettledTtl(t, snap, i);
    IdOfNode(Update(t, snap).nodes, snap.target, snap.target, j);
  }

  /** In particular the edges go forward: from each address of a hop to each other address of the next. */
  lemma HopsAreLinked(t: Topo, snap: Snapshot, i: nat, a: string, b: string, j: nat, k: nat)
    requires Good(t) && WellFormed(snap) && snap.target != "" && |Update(t, snap).edges| < MAX_EDGES
    requires 1 <= i <= 62 && a in Addrs(snap.hops[i]) && b in Addrs(snap.hops[i + 1]) && a != b
    requires j < |Update(t, snap).nodes| && Matches(Update(t, snap).nodes[j], snap.target, a)
    requires k < |Update(t, snap).nodes| && Matches(Update(t, snap).nodes[k], snap.target, b)
    ensures (j + 1, k + 1) in Update(t, snap).edges
  {
    hide IdOf, Unique, Extends, Update, Addrs;
    var ns := Update(t, snap).nodes;
    UpdateKeepsGood(t, snap);
    IdOfNode(ns, snap.target, a, j);
    IdOfNode(ns, snap.target, b, k);
    AddrInHop(ns, snap.target, snap.hops[i], a);
    AddrInHop(ns, snap.target, snap.hops[i + 1], b);
    assert Step(ns, snap, i, (j + 1, k + 1));
    EdgesOfSnapshot(t, snap, (j + 1, k + 1));
  }

  lemma AddrInHop(ns: seq<Node>, target: string, hop: HopSeen, a: string)
    requires a in Addrs(hop) && IdOf(ns, target, a) != 0
    ensures InHop(ns, target, hop, IdOf(ns, target, a))
  {
    hide IdOf;
    var k :| 0 <= k < |Addrs(hop)| && Addrs(hop)[k] == a;
    assert IdOf(ns, target, Addrs(hop)[k]) == IdOf(ns, target, a);
  }

  // ----- the TTL of a hop's node

  /** The last request that names a node gives it its TTL. */
  lemma {:induction false} TtlAfter(ns: seq<Node>, target: string, reqs: seq<Req>, k: nat, ttl: nat)
    requires Unique(ns) && target != "" && k < |reqs| && reqs[k].addr != "" && reqs[k].ttl == ttl
    requires forall m :: k < m < |reqs| && reqs[m].addr == reqs[k].addr ==> reqs[m].ttl == ttl
    ensures var ns' := UpsertAll(ns, target, reqs).0; var id := IdOf(ns', target, reqs[k].addr);
            id <= |ns'| && (id != 0 ==> ns'[id - 1].ttl == ttl)
    decreases |reqs|
  {
    hide Upsert, UpsertAll, Unique, Extends, IdOf, Touched;
    UpsertAllCons(ns, target, reqs);
    UpsertStep(ns, target, reqs[0]);
    var (ns1, id) := Upsert(ns, target, reqs[0]);
    if k > 0 {
      TtlAfter(ns1, target, reqs[1..], k - 1, ttl);
    } else {
      OneId(ns, target, reqs[0], UpsertAll(ns1, target, reqs[1..]).0) by {
        UpsertAllKeeps(ns1, target, reqs[1..]);
      }
      KeepsTtl(ns1, target, reqs[1..], id, ttl, reqs[0].addr);
    }
  }

  lemma {:induction false} KeepsTtl(ns: seq<Node>, target: string, reqs: seq<Req>, id: nat, ttl: nat, addr: string)
    requires Unique(ns) && id <= |ns| && (id != 0 ==> Matches(ns[id - 1], target, addr) && ns[id - 1].ttl == ttl)
    requires forall m :: 0 <= m < |reqs| && reqs[m].addr == addr ==> reqs[m].ttl == ttl
    ensures var ns' := UpsertAll(ns, target, reqs).0; id <= |ns'| && (id != 0 ==> ns'[id - 1].ttl == ttl)
    decreases |reqs|
  {
    hide Upsert, UpsertAll, Touched;
    if reqs == [] {
      UpsertNone(ns, target);
    } else {
      UpsertAllCons(ns, target, reqs);
      UpsertStep(ns, target, reqs[0]);
      KeepsTtl(Upsert(ns, target, reqs[0]).0, target, reqs[1..], id, ttl, addr);
    }
  }

  ghost predicate LastNames(reqs: seq<Req>, k: nat, a: string, ttl: nat) {
    && k < |reqs| && reqs[k].addr == a && reqs[k].ttl == ttl
    && forall m :: k < m < |reqs| && reqs[m].addr == a ==> reqs[m].ttl == ttl
  }

  lemma LastNamesConcat(a: seq<Req>, b: seq<Req>, k: nat, x: string, ttl: nat)
    requires LastNames(a, k, x, ttl) && forall m :: 0 <= m < |b| ==> b[m].addr != x
    ensures LastNames(a + b, k, x, ttl)
  {
  }

  lemma {:induction false} LastNaming(hops: seq<HopSeen>, n: nat, i: nat, a: string) returns (k: nat)
    requires 1 <= i < n <= |hops| && a in Addrs(hops[i])
    requires forall j :: i < j < n ==> a !in Addrs(hops[j])
    ensures LastNames(HopsReqs(hops, n), k, a, i)
  {
    hide HopReqs, Addrs;
    HopAddrs(hops[n - 1], n - 1);
    var before, last := HopsReqs(hops, n - 1), HopReqs(hops[n - 1], n - 1);
    if i == n - 1 {
      var m :| 0 <= m < |Addrs(hops[i])| && Addrs(hops[i])[m] == a;
      k := |before| + m;
    } else {
      k := LastNaming(hops, n - 1, i, a);
      forall m | 0 <= m < |last|
        ensures last[m].addr != a
      {
        assert Addrs(hops[n - 1])[m] in Addrs(hops[n - 1]);
      }
      LastNamesConcat(before, last, k, a, i);
    }
  }

  /** After a snapshot the node of an address has the number of the last hop that named it; the
      destination's own address aside. */
  lemma HopTtl(t: Topo, snap: Snapshot, i: nat, a: string, j: nat)
    requires Good(t) && WellFormed(snap) && snap.target != "" && a != snap.target && a != ""
    requires 1 <= i < MAX_HOPS && a in Addrs(snap.hops[i]) && forall h :: i < h < MAX_HOPS ==> a !in Addrs(snap.hops[h])
    requires j < |Update(t, snap).nodes| && Matches(Update(t, snap).nodes[j], snap.target, a)
    ensures Update(t, snap).nodes[j].ttl == i
  {
    hide UpsertAll, Unique, Extends, IdOf, HopsReqs, Update, Addrs, EdgesOk;
    var ns := Named(t, snap);
    var k := LastNaming(snap.hops, MAX_HOPS, i, a);
    var all := AllReqs(snap);
    assert all[1..] == HopsReqs(snap.hops, MAX_HOPS);
    assert forall m :: 0 < m < |all| ==> all[m] == all[1..][m - 1];
    TtlAfter(t.nodes, snap.target, all, k + 1, i);
    AllIdsSame(t, snap);
    SettledNodes(t, snap);
    IdOfNode(Update(t, snap).nodes, snap.target, a, j);
    SameNode(ns, Update(t, snap).nodes, snap.target, a, j);
  }

  lemma SameNode(ns: seq<Node>, ns': seq<Node>, target: string, a: string, j: nat)
    requires Unique(ns) && Extends(ns, ns') && |ns| == |ns'| && j < |ns'| && Matches(ns'[j], target, a) && a != target
    ensures j + 1 != IdOf(ns, target, target)
  {
  }
}
