/**
 The ring operations of include/nsr/shm_ring.h as their caller sees them: one call, run
 alone, over an in-memory slot array.  Each call is proved by driving the step system of
 RingSteps along the code, so the interleaved and the plain reading share one invariant.
 */
module ShmRing {
  import opened Options
  import opened Bits
  import opened RingSteps

  const BATCH_BITS: nat := 17  // 131072 slots
  const LARGE_BITS: nat := 4   // 16 slots

  class SharedRing<T(0)> {
    const variant: Variant
    const bits: nat
    var head: nat
    var tail: nat
    const data: array<T>
    ghost var accepted: seq<T>
    ghost var delivered: seq<T>

    ghost function View(): Ring<T>
      reads this, data
    {
      Ring(variant, bits, head, tail, data[..], PIdle, CIdle, accepted, delivered)
    }

    ghost predicate Valid()
      reads this, data
      ensures Valid() ==> Inv(View()) && Wf(View())
    {
      assert Inv(View()) ==> Wf(View()) by {
        if Inv(View()) { InvIsWf(View()); }
      }
      Inv(View())
    }

    ghost function Queued(): (q: seq<T>)
      requires Valid()
      reads this, data
    {
      Contents(View())
    }

    function Masked(x: nat): (r: nat)
      ensures r < Pow2(bits)
    {
      AndMaskIsMod(x, bits);
      And(x, Pow2(bits) - 1)
    }

    constructor (variant: Variant)
      ensures Valid() && this.variant == variant
      ensures bits == (if variant.Batch? then BATCH_BITS else LARGE_BITS)
      ensures fresh(data) && Queued() == []
    {
      this.variant := variant;
      var b := if variant.Batch? then BATCH_BITS else LARGE_BITS;
      this.bits := b;
      this.data := new T[Pow2(b)];
      head, tail := 0, 0;
      accepted, delivered := [], [];
      new;
      InitialInv(View());
      InvIsWf(View());
      ContentsFromHistory(View());
    }

    /** The copy loop of a push: the slots after `head` receive the items. */
    method CopyItems(items: seq<T>, h: nat)
      requires Inv(Pushing(items, h, 0)) && h == head
      modifies data
      ensures Inv(Pushing(items, h, |items|))
    {
      hide Inv;
      var i := 0;
      while i < |items|
        invariant 0 <= i <= |items|
        invariant Inv(Pushing(items, h, i))
      {
        ghost var st := Pushing(items, h, i);
        InvIsWf(st);
        CopyInInv(st);
        data[Masked(h + i)] := items[i];
        i := i + 1;
        assert Pushing(items, h, i) == DoCopyIn(st);
      }
    }

    ghost function Pushing(items: seq<T>, h: nat, i: nat): Ring<T>
      reads this, data
    {
      View().(prod := PCopying(items, h, i))
    }

    ghost function Popping(count: nat, t: nat, out: seq<T>): Ring<T>
      reads this, data
    {
      View().(cons := CCopying(count, t, out))
    }

    /** The copy loop of a pop. */
    method ReadItems(count: nat, t: nat) returns (out: seq<T>)
      requires Inv(Popping(count, t, []))
      ensures |out| == count && Inv(Popping(count, t, out))
    {
      hide Inv;
      out := [];
      InvIsWf(Popping(count, t, out));
      var i := 0;
      while i < count
        invariant 0 <= i <= count && |out| == i
        invariant Inv(Popping(count, t, out)) && |data[..]| == Pow2(bits)
      {
        ghost var st := Popping(count, t, out);
        InvIsWf(st);
        CopyOutInv(st);
        out := out + [data[Masked(t + i)]];
        i := i + 1;
        assert Popping(count, t, out) == DoCopyOut(st);
      }
    }

    /** All the items are queued, in order, or none of them and the ring is as it was; a batch
        is refused exactly when it would leave fewer than two slots free. */
    method PushBatch(items: seq<T>) returns (ok: bool)
      requires Valid() && variant.Batch?
      modifies this, data
      ensures Valid()
      ensures ok == (old(|Queued()|) + |items| <= Pow2(bits) - 2)
      ensures Queued() == if ok then old(Queued()) + items else old(Queued())
    {
      hide Inv, Contents;
      StartPush(View(), items);
      var h, t := head, tail;
      var next := Masked(h + |items|);
      var used := Masked(Sub32(h, t));
      if used + |items| >= Pow2(bits) - 1 {
        return false;
      }
      CopyItems(items, h);
      FinishPush(Pushing(items, h, |items|), old(View()));
      head := next;
      accepted := accepted + items;
      return true;
    }

    /** Hands over the oldest items, as many as asked for and present. */
    method PopBatch(max: nat) returns (out: seq<T>)
      requires Valid()
      modifies this
      ensures Valid()
      ensures |out| == (if old(|Queued()|) < max then old(|Queued()|) else max)
      ensures old(Queued()) == out + Queued()
    {
      hide Inv, Contents;
      StartPush(View(), []);
      var t, h := tail, head;
      var available := Masked(Sub32(h, t));
      if available == 0 {
        return [];
      }
      var count := if available < max then available else max;
      out := Take(count, t);
    }

    /** Copies out the oldest items and moves the tail behind them. */
    method Take(count: nat, t: nat) returns (out: seq<T>)
      requires Valid() && count <= Occupancy(View()) && t == tail
      modifies this
      ensures Valid() && |out| == count && old(Queued()) == out + Queued()
    {
      hide Inv, Contents;
      StartPop(View(), count);
      out := ReadItems(count, t);
      FinishPop(Popping(count, t, out), View());
      tail := Masked(t + count);
      delivered := delivered + out;
    }

    /** One state snapshot, refused exactly when 15 of the 16 slots are taken. */
    method LargePush(item: T) returns (ok: bool)
      requires Valid() && variant.Large?
      modifies this, data
      ensures Valid()
      ensures ok == (old(|Queued()|) <= Pow2(bits) - 2)
      ensures Queued() == if ok then old(Queued()) + [item] else old(Queued())
    {
      hide Inv, Contents;
      StartPush(View(), [item]);
      LargeFull(View());
      var h, t := head, tail;
      if Masked(h + 1) == t {
        return false;
      }
      CopyOne(Pushing([item], h, 0));
      data[h] := item;
      assert Pushing([item], h, 1) == DoCopyIn(old(Pushing([item], h, 0)));
      FinishPush(Pushing([item], h, 1), old(View()));
      head := Masked(h + 1);
      accepted := accepted + [item];
      return true;
    }

    /** The oldest snapshot, or nothing when the ring is empty. */
    method LargePop() returns (r: Option<T>)
      requires Valid() && variant.Large?
      modifies this
      ensures Valid()
      ensures r.None? <==> old(Queued()) == []
      ensures r.None? ==> Queued() == old(Queued())
      ensures r.Some? ==> old(Queued()) == [r.value] + Queued()
    {
      hide Inv, Contents;
      LargeEmpty(View());
      var t, h := tail, head;
      if t == h {
        return None;
      }
      StartPop(View(), 1);
      ReadOne(Popping(1, t, []));
      r := Some(data[t]);
      assert Popping(1, t, [r.value]) == DoCopyOut(Popping(1, t, []));
      FinishPop(Popping(1, t, [r.value]), View());
      tail := Masked(t + 1);
      delivered := delivered + [r.value];
    }
  }

  /** The guard of either push, read on a ring at rest. */
  lemma StartPush<T>(s: Ring<T>, items: seq<T>)
    requires Inv(s) && Wf(s) && s.prod.PIdle?
    ensures |Contents(s)| == Mask(s, Sub32(s.head, s.tail))
    ensures |Contents(s)| + |items| <= Capacity(s) ==> Inv(s.(prod := PCopying(items, s.head, 0)))
  {
    ContentsFromHistory(s);
    assert s.accepted + items[..0] == s.accepted;
  }

  lemma FinishPush<T>(st: Ring<T>, s: Ring<T>)
    requires Inv(st) && st.prod.PCopying? && st.prod.i == |st.prod.items|
    requires Inv(s) && Wf(s) && s.accepted == st.accepted && s.delivered == st.delivered
    ensures var s' := DoPublishHead(st);
            Inv(s') && Wf(s') && Contents(s') == Contents(s) + st.prod.items
  {
    PublishHeadInv(st);
    InvIsWf(DoPublishHead(st));
    ContentsFromHistory(s);
    ContentsFromHistory(DoPublishHead(st));
    DropOfConcat(st.accepted, st.prod.items, |st.delivered|);
  }

  lemma StartPop<T>(s: Ring<T>, count: nat)
    requires Inv(s) && Wf(s) && s.cons.CIdle? && count <= Occupancy(s)
    ensures Inv(s.(cons := CCopying(count, s.tail, [])))
  {
    ContentsFromHistory(s);
  }

  lemma FinishPop<T>(st: Ring<T>, s: Ring<T>)
    requires Inv(st) && st.cons.CCopying? && st.cons.count == |st.cons.out|
    requires Inv(s) && Wf(s) && s.accepted == st.accepted && s.delivered == st.delivered
    ensures var s' := DoPublishTail(st);
            Inv(s') && Wf(s') && Contents(s) == st.cons.out + Contents(s')
  {
    hide Contents, Slot;
    assert |st.delivered| + st.cons.count <= |st.accepted|;
    assert st.cons.out == st.accepted[|st.delivered|..|st.delivered| + st.cons.count];
    hide Inv;
    PublishTailInv(st);
    InvIsWf(DoPublishTail(st));
    ContentsFromHistory(s);
    ContentsFromHistory(DoPublishTail(st));
    RemoveFront(st.accepted, |st.delivered|, st.cons.count);
  }

  lemma CopyOne<T>(st: Ring<T>)
    requires Inv(st) && st.prod.PCopying? && st.prod.i == 0 < |st.prod.items|
    ensures Wf(st) && Inv(DoCopyIn(st)) && Mask(st, st.prod.h + 0) == st.prod.h
  {
    InvIsWf(st);
    CopyInInv(st);
    SlotOf(st, |st.accepted|, 0);
  }

  lemma ReadOne<T>(st: Ring<T>)
    requires Inv(st) && st.cons.CCopying? && st.cons.out == [] && 0 < st.cons.count
    ensures Wf(st) && Inv(DoCopyOut(st)) && st.cons.t < |st.data|
    ensures DoCopyOut(st) == st.(cons := st.cons.(out := [st.data[st.cons.t]]))
  {
    InvIsWf(st);
    CopyOutInv(st);
    SlotOf(st, |st.delivered|, 0);
  }

  lemma HeadAndTail<T>(s: Ring<T>)
    requires Inv(s) && Wf(s)
    ensures var n, h, t := Size(s), |s.accepted|, |s.delivered|;
            s.head == Slot(h, n) && s.tail == Slot(t, n) && t <= h <= t + Capacity(s)
  {
  }

  lemma LargeFull<T>(s: Ring<T>)
    requires Inv(s) && Wf(s) && s.variant.Large?
    ensures Mask(s, s.head + 1) == s.tail <==> |Contents(s)| == Capacity(s)
    ensures |Contents(s)| <= Capacity(s)
  {
    hide Inv, Wf, Contents, Mask;
    HeadAndTail(s);
    ContentsFromHistory(s);
    var h, t, n := |s.accepted|, |s.delivered|, Size(s);
    SlotOf(s, h, 1);
    if Slot(h + 1, n) == Slot(t, n) && h + 1 < t + n {
      SlotInjective(t, h + 1, n);
    }
  }

  lemma LargeEmpty<T>(s: Ring<T>)
    requires Inv(s) && Wf(s)
    ensures s.head == s.tail <==> Contents(s) == []
    ensures s.head != s.tail ==> 1 <= Occupancy(s)
  {
    ContentsFromHistory(s);
    if s.head == s.tail {
      SlotInjective(|s.delivered|, |s.accepted|, Size(s));
    }
  }
}
