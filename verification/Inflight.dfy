/**
 The gatekeeper's in-flight table: one entry per 16-bit sequence number, written by
 track_probe and released by find_probe, drop_probe and the once-a-second reaper.
 Each entry carries, for the proofs only, the number of the probe it was tracked for.
 */
module Inflight {
  import opened Options

  const MAX_INFLIGHT: nat := 65536
  const REAP_PERIOD_US: nat := 1_000_000
  const STALE_US: nat := 5_000_000
  const U64: nat := 0x1_0000_0000_0000_0000

  datatype Entry = Entry(ttl: nat, seqNo: nat, sentUs: nat, active: bool, probe: nat)

  /** Unsigned 64-bit `now - then`. */
  function Elapsed(now: nat, since: nat): int {
    if since <= now then now - since else now - since + U64
  }

  function HomeSlot(seqNo: nat): (i: nat)
    ensures i < MAX_INFLIGHT
  {
    seqNo % MAX_INFLIGHT
  }

  predicate Holds(slots: seq<Entry>, seqNo: nat)
    requires |slots| == MAX_INFLIGHT
  {
    slots[HomeSlot(seqNo)].active && slots[HomeSlot(seqNo)].seqNo == seqNo
  }

  predicate Stale(e: Entry, now: nat) {
    e.active && Elapsed(now, e.sentUs) > STALE_US
  }

  function Tracked(slots: seq<Entry>, ttl: nat, seqNo: nat, now: nat, probe: nat): (r: seq<Entry>)
    requires |slots| == MAX_INFLIGHT
  {
    slots[HomeSlot(seqNo) := Entry(ttl, seqNo, now, true, probe)]
  }

  function Released(slots: seq<Entry>, seqNo: nat): (r: seq<Entry>)
    requires |slots| == MAX_INFLIGHT
  {
    if Holds(slots, seqNo) then slots[HomeSlot(seqNo) := slots[HomeSlot(seqNo)].(active := false)] else slots
  }

  function Reaped(slots: seq<Entry>, now: nat): (r: seq<Entry>)
    ensures |r| == |slots|
    ensures forall i :: 0 <= i < |slots| ==>
                          r[i] == if Stale(slots[i], now) then slots[i].(active := false) else slots[i]
  {
    seq(|slots|, i requires 0 <= i < |slots| => if Stale(slots[i], now) then slots[i].(active := false) else slots[i])
  }

  class Table {
    const slots: array<Entry>
    var lastReap: nat

    ghost predicate Valid()
      reads this
    {
      slots.Length == MAX_INFLIGHT
    }

    constructor ()
      ensures Valid() && fresh(slots) && lastReap == 0
      ensures forall i :: 0 <= i < MAX_INFLIGHT ==> !slots[i].active
    {
      slots := new Entry[MAX_INFLIGHT](_ => Entry(0, 0, 0, false, 0));
      lastReap := 0;
    }

    method Track(ttl: nat, seqNo: nat, now: nat, probe: nat)
      requires Valid()
      modifies slots
      ensures slots[..] == Tracked(old(slots[..]), ttl, seqNo, now, probe)
    {
      slots[HomeSlot(seqNo)] := Entry(ttl, seqNo, now, true, probe);
    }

    /** At most one caller gets the entry: finding it releases it. */
    method Find(seqNo: nat) returns (r: Option<Entry>)
      requires Valid()
      modifies slots
      ensures r.Some? <==> old(Holds(slots[..], seqNo))
      ensures r.Some? ==> r.value == old(slots[HomeSlot(seqNo)])
      ensures slots[..] == Released(old(slots[..]), seqNo)
      ensures !Holds(slots[..], seqNo)
    {
      var i := HomeSlot(seqNo);
      if slots[i].active && slots[i].seqNo == seqNo {
        r := Some(slots[i]);
        slots[i] := slots[i].(active := false);
      } else {
        r := None;
      }
    }

    method Drop(seqNo: nat)
      requires Valid()
      modifies slots
      ensures slots[..] == Released(old(slots[..]), seqNo)
      ensures !Holds(slots[..], seqNo)
    {
      var i := HomeSlot(seqNo);
      if slots[i].active && slots[i].seqNo == seqNo {
        slots[i] := slots[i].(active := false);
      }
    }

    /** After a sweep nothing older than five seconds is active; between sweeps nothing changes. */
    method ReapStale(now: nat)
      requires Valid()
      modifies this, slots
      ensures Valid()
      ensures Elapsed(now, old(lastReap)) < REAP_PERIOD_US ==> lastReap == old(lastReap) && slots[..] == old(slots[..])
      ensures Elapsed(now, old(lastReap)) >= REAP_PERIOD_US ==>
                && lastReap == now && slots[..] == Reaped(old(slots[..]), now)
                && forall i :: 0 <= i < MAX_INFLIGHT ==> !Stale(slots[i], now)
      ensures forall i :: 0 <= i < MAX_INFLIGHT ==>
                (slots[i].active <==> old(slots[i]).active && !(Elapsed(now, old(lastReap)) >= 1_000_000
                                                              && Elapsed(now, old(slots[i]).sentUs) > 5_000_000))
    {
      if Elapsed(now, lastReap) < REAP_PERIOD_US {
        return;
      }
      lastReap := now;
      ghost var before := slots[..];
      for i := 0 to MAX_INFLIGHT
        invariant lastReap == now
        invariant forall j :: 0 <= j < i ==>
                                slots[j] == if Stale(before[j], now) then before[j].(active := false) else before[j]
        invariant forall j :: i <= j < MAX_INFLIGHT ==> slots[j] == before[j]
      {
        if slots[i].active && Elapsed(now, slots[i].sentUs) > STALE_US {
          slots[i] := slots[i].(active := false);
        }
      }
    }
  }

  // ----- which probes are in flight

  /** The probes of the active entries, each as often as it occurs. */
  function Active(slots: seq<Entry>): multiset<nat> {
    if slots == [] then multiset{}
    else Active(slots[..|slots| - 1]) + Held(slots[|slots| - 1])
  }

  function Held(e: Entry): multiset<nat> {
    if e.active then multiset{e.probe} else multiset{}
  }

  /** The probes a sweep takes out. */
  function ReapedProbes(slots: seq<Entry>, now: nat): multiset<nat> {
    if slots == [] then multiset{}
    else
      var e := slots[|slots| - 1];
      ReapedProbes(slots[..|slots| - 1], now) + if Stale(e, now) then multiset{e.probe} else multiset{}
  }

  lemma {:induction false} ActiveUpdate(slots: seq<Entry>, i: nat, e: Entry)
    requires i < |slots|
    ensures Active(slots[i := e]) + Held(slots[i]) == Active(slots) + Held(e)
  {
    hide Held;
    var n, upd := |slots| - 1, slots[i := e];
    assert Active(upd) == Active(upd[..n]) + Held(upd[n]);
    assert Active(slots) == Active(slots[..n]) + Held(slots[n]);
    if i == n {
      assert upd[..n] == slots[..n];
    } else {
      assert upd[..n] == slots[..n][i := e];
      ActiveUpdate(slots[..n], i, e);
      assert slots[..n][i] == slots[i];
      AddToBoth(Active(upd[..n]), Held(slots[i]), Active(slots[..n]), Held(e), Held(slots[n]));
    }
  }

  lemma AddToBoth(a: multiset<nat>, b: multiset<nat>, c: multiset<nat>, d: multiset<nat>, x: multiset<nat>)
    requires a + b == c + d
    ensures (a + x) + b == (c + x) + d
  {
    assert (a + x) + b == (a + b) + x;
    assert (c + x) + d == (c + d) + x;
  }

  lemma {:induction false} ActiveHas(slots: seq<Entry>, i: nat)
    requires i < |slots| && slots[i].active
    ensures slots[i].probe in Active(slots)
  {
    if i < |slots| - 1 {
      ActiveHas(slots[..|slots| - 1], i);
    }
  }

  /** A sweep splits the active probes into those it keeps and those it takes out. */
  lemma {:induction false} ReapSplits(slots: seq<Entry>, now: nat)
    ensures Active(slots) == Active(Reaped(slots, now)) + ReapedProbes(slots, now)
  {
    if slots != [] {
      var n := |slots| - 1;
      assert Reaped(slots, now)[..n] == Reaped(slots[..n], now);
      ReapSplits(slots[..n], now);
    }
  }

  lemma {:induction false} NothingActive(slots: seq<Entry>)
    requires forall i :: 0 <= i < |slots| ==> !slots[i].active
    ensures Active(slots) == multiset{}
  {
    if slots != [] {
      NothingActive(slots[..|slots| - 1]);
    }
  }
}
