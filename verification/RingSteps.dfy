/**
 The single-producer, single-consumer rings of include/nsr/shm_ring.h as a step system.
 Every index load, guard, slot copy and index store is its own step, and the steps of the
 producer and of the consumer interleave in any order, so each side may act on an index of
 its peer that has since moved.  `Batch` is the ring of push_batch and pop_batch, `Large`
 the one-item ring of large_push and large_pop.
 */
module RingSteps {
  import opened Bits

  datatype Variant = Batch | Large

  /** The producer inside a push: `h` and `t` are its local copies of the two indices,
      `seen` is how many items had been consumed when it loaded `t`. */
  datatype Producer<T> =
    | PIdle
    | PHasHead(items: seq<T>, h: nat)
    | PHasTail(items: seq<T>, h: nat, t: nat, seen: nat)
    | PCopying(items: seq<T>, h: nat, i: nat)

  /** The consumer inside a pop: `seen` is how many items had been published when it loaded `h`. */
  datatype Consumer<T> =
    | CIdle
    | CHasTail(max: nat, t: nat)
    | CHasHead(max: nat, t: nat, h: nat, seen: nat)
    | CCopying(count: nat, t: nat, out: seq<T>)

  /** `head`, `tail` and `data` are the shared memory.  `accepted` collects the items of every
      push that returned true, `delivered` what the pops handed to their callers. */
  datatype Ring<T> = Ring(
    variant: Variant, bits: nat,
    head: nat, tail: nat, data: seq<T>,
    prod: Producer<T>, cons: Consumer<T>,
    accepted: seq<T>, delivered: seq<T>)

  datatype Step<T> =
    | LoadHead(items: seq<T>)  // producer: relaxed load of its own index
    | LoadTail                 // producer: acquire load of the peer's index
    | CheckRoom                // producer: the overflow guard
    | CopyIn                   // producer: one slot
    | PublishHead              // producer: the release store
    | ConsLoadTail(max: nat)   // consumer: relaxed load of its own index
    | ConsLoadHead             // consumer: acquire load of the peer's index
    | CheckItems               // consumer: the emptiness guard
    | CopyOut                  // consumer: one slot
    | PublishTail              // consumer: the release store

  function Size(s: Ring): (n: nat)
    ensures 0 < n
  {
    Pow2(s.bits)
  }

  function Capacity(s: Ring): int {
    if s.variant.Batch? then Size(s) - 2 else Size(s) - 1
  }

  /** `x & (size - 1)` */
  function Mask(s: Ring, x: nat): (r: nat)
    ensures r < Size(s)
  {
    AndMaskIsMod(x, s.bits);
    And(x, Size(s) - 1)
  }

  /** The guard that makes a push return false. */
  predicate Refuses(s: Ring, h: nat, t: nat, count: nat)
    requires h < WORD32 && t < WORD32
  {
    if s.variant.Batch? then
      Mask(s, Sub32(h, t)) + count >= Size(s) - 1
    else
      Mask(s, h + 1) == t
  }

  predicate Enabled<T>(s: Ring<T>, step: Step<T>) {
    match step
    case LoadHead(items) => s.prod.PIdle? && (s.variant.Large? ==> |items| == 1)
    case LoadTail => s.prod.PHasHead?
    case CheckRoom => s.prod.PHasTail?
    case CopyIn => s.prod.PCopying? && s.prod.i < |s.prod.items|
    case PublishHead => s.prod.PCopying? && s.prod.i == |s.prod.items|
    case ConsLoadTail(max) => s.cons.CIdle? && (s.variant.Large? ==> max == 1)
    case ConsLoadHead => s.cons.CHasTail?
    case CheckItems => s.cons.CHasHead?
    case CopyOut => s.cons.CCopying? && |s.cons.out| < s.cons.count
    case PublishTail => s.cons.CCopying? && |s.cons.out| == s.cons.count
  }

  /** What shared memory alone shows: the slots from `tail` up to `head`. */
  function Occupancy(s: Ring): nat
    requires s.head < WORD32 && s.tail < WORD32
  {
    Mask(s, Sub32(s.head, s.tail))
  }

  predicate Wf(s: Ring) {
    && 1 <= s.bits <= 32
    && |s.data| == Size(s)
    && s.head < WORD32 && s.tail < WORD32
    && (s.prod.PHasHead? || s.prod.PHasTail? || s.prod.PCopying? ==> s.prod.h < WORD32)
    && (s.prod.PHasTail? ==> s.prod.t < WORD32)
    && (s.cons.CHasHead? ==> s.cons.t < WORD32 && s.cons.h < WORD32)
  }

  function Contents<T>(s: Ring<T>): seq<T>
    requires Wf(s)
  {
    seq(Occupancy(s), i requires 0 <= i < Occupancy(s) => s.data[Mask(s, s.tail + i)])
  }

  function DoCheckRoom<T>(s: Ring<T>): Ring<T>
    requires Wf(s) && s.prod.PHasTail?
  {
    if Refuses(s, s.prod.h, s.prod.t, |s.prod.items|) then s.(prod := PIdle)
    else s.(prod := PCopying(s.prod.items, s.prod.h, 0))
  }

  function DoCopyIn<T>(s: Ring<T>): Ring<T>
    requires Wf(s) && s.prod.PCopying? && s.prod.i < |s.prod.items|
  {
    s.(data := s.data[Mask(s, s.prod.h + s.prod.i) := s.prod.items[s.prod.i]],
       prod := s.prod.(i := s.prod.i + 1))
  }

  function DoPublishHead<T>(s: Ring<T>): Ring<T>
    requires s.prod.PCopying?
  {
    s.(head := Mask(s, s.prod.h + |s.prod.items|), prod := PIdle,
       accepted := s.accepted + s.prod.items)
  }

  function DoCheckItems<T>(s: Ring<T>): Ring<T>
    requires Wf(s) && s.cons.CHasHead?
  {
    var available := Mask(s, Sub32(s.cons.h, s.cons.t));
    if available == 0 then s.(cons := CIdle)
    else s.(cons := CCopying(if available < s.cons.max then available else s.cons.max, s.cons.t, []))
  }

  function DoCopyOut<T>(s: Ring<T>): Ring<T>
    requires Wf(s) && s.cons.CCopying?
  {
    s.(cons := s.cons.(out := s.cons.out + [s.data[Mask(s, s.cons.t + |s.cons.out|)]]))
  }

  function DoPublishTail<T>(s: Ring<T>): Ring<T>
    requires s.cons.CCopying?
  {
    s.(tail := Mask(s, s.cons.t + s.cons.count), cons := CIdle,
       delivered := s.delivered + s.cons.out)
  }

  function Apply<T>(s: Ring<T>, step: Step<T>): Ring<T>
    requires Wf(s) && Enabled(s, step)
  {
    match step
    case LoadHead(items) => s.(prod := PHasHead(items, s.head))
    case LoadTail => s.(prod := PHasTail(s.prod.items, s.prod.h, s.tail, |s.delivered|))
    case CheckRoom => DoCheckRoom(s)
    case CopyIn => DoCopyIn(s)
    case PublishHead => DoPublishHead(s)
    case ConsLoadTail(max) => s.(cons := CHasTail(max, s.tail))
    case ConsLoadHead => s.(cons := CHasHead(s.cons.max, s.cons.t, s.head, |s.accepted|))
    case CheckItems => DoCheckItems(s)
    case CopyOut => DoCopyOut(s)
    case PublishTail => DoPublishTail(s)
  }

  ghost predicate Initial(s: Ring) {
    && 1 <= s.bits <= 32
    && |s.data| == Size(s)
    && s.head == 0 && s.tail == 0
    && s.prod.PIdle? && s.cons.CIdle?
    && s.accepted == [] && s.delivered == []
  }

  ghost predicate Next<T(!new)>(s: Ring<T>, s': Ring<T>) {
    exists step: Step<T> :: IsStep(s, step, s')
  }

  ghost predicate IsStep<T>(s: Ring<T>, step: Step<T>, s': Ring<T>) {
    Wf(s) && Enabled(s, step) && s' == Apply(s, step)
  }

  /** Any interleaving, from the first state on. */
  ghost predicate IsRun<T(!new)>(run: seq<Ring<T>>) {
    && |run| > 0 && Initial(run[0])
    && forall i :: 0 < i < |run| ==> Next(run[i - 1], run[i])
  }

  // ----- the invariant

  /** The slots hold the items of `a` from number `lo` on. */
  ghost predicate Stored<T>(data: seq<T>, a: seq<T>, lo: nat, n: nat)
    requires 0 < n == |data|
  {
    forall i: nat {:trigger Slot(i, n)} :: lo <= i < |a| ==> data[Slot(i, n)] == a[i]
  }

  lemma StoredAppend<T>(data: seq<T>, a: seq<T>, b: seq<T>, lo: nat, n: nat)
    requires 0 < n == |data| && lo <= |a|
    requires Stored(data, a, lo, n) && Stored(data, a + b, |a|, n)
    ensures Stored(data, a + b, lo, n)
  {
    forall i | lo <= i < |a + b|
      ensures data[Slot(i, n)] == (a + b)[i]
    {
      if i < |a| {
        assert (a + b)[i] == a[i];
      }
    }
  }

  /** Writing item number |a| leaves the n - 1 items before it in place. */
  lemma StoredWrite<T>(data: seq<T>, a: seq<T>, x: T, lo: nat, n: nat)
    requires 0 < n == |data| && lo <= |a| < lo + n
    requires Stored(data, a, lo, n)
    ensures Stored(data[Slot(|a|, n) := x], a + [x], lo, n)
    ensures Stored(data[Slot(|a|, n) := x], a, lo, n)
  {
    forall i | lo <= i < |a|
      ensures Slot(i, n) != Slot(|a|, n)
    {
      if Slot(i, n) == Slot(|a|, n) {
        SlotInjective(i, |a|, n);
      }
    }
  }

  lemma StoredPart<T>(data: seq<T>, a: seq<T>, b: seq<T>, lo: nat, n: nat)
    requires 0 < n == |data| && a <= b && Stored(data, b, lo, n)
    ensures Stored(data, a, lo, n)
  {
  }

  lemma SliceSnoc<T>(a: seq<T>, t: nat, i: nat)
    requires t <= i < |a|
    ensures a[t..i + 1] == a[t..i] + [a[i]]
  {
  }

  lemma PrefixGrows<T>(a: seq<T>, t: nat, c: nat)
    requires t + c <= |a|
    ensures a[..t] + a[t..t + c] == a[..t + c]
  {
  }

  lemma PrefixOfConcat<T>(a: seq<T>, b: seq<T>, lo: nat, hi: nat)
    requires lo <= hi <= |a|
    ensures (a + b)[lo..hi] == a[lo..hi]
    ensures (a + b)[..hi] == a[..hi]
  {
  }

  lemma SnocConcat<T>(a: seq<T>, b: seq<T>, i: nat)
    requires i < |b|
    ensures a + b[..i + 1] == (a + b[..i]) + [b[i]]
  {
    assert b[..i + 1] == b[..i] + [b[i]];
  }

  ghost predicate SharedInv(s: Ring) {
    var n, h, t := Size(s), |s.accepted|, |s.delivered|;
    && 1 <= s.bits <= 32
    && |s.data| == n
    && s.head == Slot(h, n) && s.tail == Slot(t, n)
    && t <= h <= t + Capacity(s)
    && s.delivered == s.accepted[..t]
    && Stored(s.data, s.accepted, t, n)
  }

  ghost predicate ProducerInv(s: Ring) {
    var n, h, t := Size(s), |s.accepted|, |s.delivered|;
    match s.prod
    case PIdle => true
    case PHasHead(items, ph) => ph == s.head && (s.variant.Large? ==> |items| == 1)
    case PHasTail(items, ph, pt, seen) =>
      && ph == s.head && pt == Slot(seen, n)
      && seen <= t && h <= seen + Capacity(s)
      && (s.variant.Large? ==> |items| == 1)
    case PCopying(items, ph, i) =>
      && |s.data| == n
      && ph == s.head && i <= |items|
      && h + |items| <= t + Capacity(s)
      && Stored(s.data, s.accepted + items[..i], h, n)
  }

  ghost predicate ConsumerInv(s: Ring) {
    var n, h, t := Size(s), |s.accepted|, |s.delivered|;
    match s.cons
    case CIdle => true
    case CHasTail(max, ct) => ct == s.tail
    case CHasHead(max, ct, ch, seen) => ct == s.tail && ch == Slot(seen, n) && t <= seen <= h
    case CCopying(count, ct, out) =>
      && ct == s.tail && t + count <= h
      && |out| <= count && out == s.accepted[t..t + |out|]
  }

  ghost predicate Inv(s: Ring) {
    SharedInv(s) && ProducerInv(s) && ConsumerInv(s)
  }

  lemma SlotOf(s: Ring, base: nat, i: nat)
    ensures Mask(s, Slot(base, Size(s)) + i) == Slot(base + i, Size(s))
  {
    MaskedSlot(base, i, s.bits);
  }

  lemma InvIsWf(s: Ring)
    requires Inv(s)
    ensures Wf(s)
  {
    var c := RingSizeDivides(s.bits);
  }

  lemma InitialInv(s: Ring)
    requires Initial(s)
    ensures Inv(s)
  {
    assert Pow2(s.bits) == 2 * Pow2(s.bits - 1);
  }

  /** The guard on a possibly stale tail: whatever passes leaves room under the true tail. */
  lemma RoomIsReal(s: Ring)
    requires Inv(s) && Wf(s) && s.prod.PHasTail?
    requires !Refuses(s, s.prod.h, s.prod.t, |s.prod.items|)
    ensures |s.accepted| + |s.prod.items| <= s.prod.seen + Capacity(s)
  {
    var n, h, seen := Size(s), |s.accepted|, s.prod.seen;
    if s.variant.Batch? {
      MaskedDistance(h, seen, s.bits);
    } else if h == seen + Capacity(s) {
      SlotOf(s, h, 1);
    }
  }

  lemma CopiedIn<T>(data: seq<T>, a: seq<T>, items: seq<T>, i: nat, t: nat, n: nat)
    requires 0 < n == |data| && i < |items| && t <= |a| && |a| + i < t + n
    requires Stored(data, a, t, n) && Stored(data, a + items[..i], |a|, n)
    ensures Stored(data[Slot(|a| + i, n) := items[i]], a, t, n)
    ensures Stored(data[Slot(|a| + i, n) := items[i]], a + items[..i + 1], |a|, n)
  {
    SnocConcat(a, items, i);
    StoredAppend(data, a, items[..i], t, n);
    StoredWrite(data, a + items[..i], items[i], t, n);
    var data' := data[Slot(|a| + i, n) := items[i]];
    StoredPart(data', a, a + items[..i], t, n);
  }

  lemma CopyInInv<T>(s: Ring<T>)
    requires Inv(s) && Wf(s) && s.prod.PCopying? && s.prod.i < |s.prod.items|
    ensures Inv(DoCopyIn(s))
  {
    hide Stored, Slot, Mask;
    SlotOf(s, |s.accepted|, s.prod.i);
    CopiedIn(s.data, s.accepted, s.prod.items, s.prod.i, |s.delivered|, Size(s));
    assert SharedInv(DoCopyIn(s));
  }

  lemma PublishHeadShared<T>(s: Ring<T>)
    requires SharedInv(s) && ProducerInv(s) && s.prod.PCopying? && s.prod.i == |s.prod.items|
    ensures SharedInv(DoPublishHead(s))
  {
    hide Stored, Slot, Mask;
    var a, items, t := s.accepted, s.prod.items, |s.delivered|;
    SlotOf(s, |a|, |items|);
    assert items[..|items|] == items;
    StoredAppend(s.data, a, items, t, Size(s));
    PrefixOfConcat(a, items, t, t);
  }

  lemma PublishHeadInv<T>(s: Ring<T>)
    requires Inv(s) && s.prod.PCopying? && s.prod.i == |s.prod.items|
    ensures Inv(DoPublishHead(s))
  {
    PublishHeadShared(s);
    if s.cons.CCopying? {
      PrefixOfConcat(s.accepted, s.prod.items, |s.delivered|, |s.delivered| + |s.cons.out|);
    }
  }

  lemma CheckRoomInv<T>(s: Ring<T>)
    requires Inv(s) && Wf(s) && s.prod.PHasTail?
    ensures Inv(DoCheckRoom(s))
  {
    if !Refuses(s, s.prod.h, s.prod.t, |s.prod.items|) {
      RoomIsReal(s);
    }
  }

  lemma CheckItemsInv<T>(s: Ring<T>)
    requires Inv(s) && Wf(s) && s.cons.CHasHead?
    ensures Inv(DoCheckItems(s))
  {
    MaskedDistance(s.cons.seen, |s.delivered|, s.bits);
  }

  lemma NextItem<T>(s: Ring<T>, i: nat)
    requires SharedInv(s) && |s.delivered| + i < |s.accepted|
    ensures s.data[Mask(s, s.tail + i)] == s.accepted[|s.delivered| + i]
  {
    SlotOf(s, |s.delivered|, i);
  }

  lemma CopyOutInv<T>(s: Ring<T>)
    requires Inv(s) && Wf(s) && s.cons.CCopying? && |s.cons.out| < s.cons.count
    ensures Inv(DoCopyOut(s))
  {
    hide Stored, Slot, Mask;
    NextItem(s, |s.cons.out|);
    SliceSnoc(s.accepted, |s.delivered|, |s.delivered| + |s.cons.out|);
    assert ConsumerInv(DoCopyOut(s));
  }

  lemma PublishTailInv<T>(s: Ring<T>)
    requires Inv(s) && s.cons.CCopying? && |s.cons.out| == s.cons.count
    ensures Inv(DoPublishTail(s))
  {
    hide Slot, Mask;
    var t := |s.delivered|;
    SlotOf(s, t, s.cons.count);
    PrefixGrows(s.accepted, t, s.cons.count);
    assert Stored(s.data, s.accepted, t + s.cons.count, Size(s));
  }

  lemma StepInv<T>(s: Ring<T>, step: Step<T>)
    requires Inv(s) && Wf(s) && Enabled(s, step)
    ensures Inv(Apply(s, step))
  {
    match step
    case CheckRoom => CheckRoomInv(s);
    case CopyIn => CopyInInv(s);
    case PublishHead => PublishHeadInv(s);
    case CheckItems => CheckItemsInv(s);
    case CopyOut => CopyOutInv(s);
    case PublishTail => PublishTailInv(s);
    case _ =>
  }

  lemma {:induction false} RunInv<T(!new)>(run: seq<Ring<T>>, i: nat)
    requires IsRun(run) && i < |run|
    ensures Inv(run[i]) && Wf(run[i])
  {
    if i == 0 {
      InitialInv(run[0]);
    } else {
      RunInv(run, i - 1);
      assert Next(run[i - 1], run[i]);
      var step: Step<T> :| IsStep(run[i - 1], step, run[i]);
      StepInv(run[i - 1], step);
    }
    InvIsWf(run[i]);
  }

  // ----- main results

  lemma ContentsFromHistory<T>(s: Ring<T>)
    requires Inv(s) && Wf(s)
    ensures Occupancy(s) == |s.accepted| - |s.delivered|
    ensures Contents(s) == s.accepted[|s.delivered|..]
  {
    var h, t := |s.accepted|, |s.delivered|;
    MaskedDistance(h, t, s.bits);
    forall i | 0 <= i < h - t
      ensures Contents(s)[i] == s.accepted[t..][i]
    {
      NextItem(s, i);
    }
  }

  /** In every state of every run, what the producer was told it had queued is what the
      consumer got so far followed by what memory holds between the indices: nothing is lost,
      duplicated or reordered, and the ring never holds more than its capacity. */
  lemma FifoAtEveryState<T(!new)>(run: seq<Ring<T>>, i: nat)
    requires IsRun(run) && i < |run|
    ensures Wf(run[i])
    ensures run[i].accepted == run[i].delivered + Contents(run[i])
    ensures Occupancy(run[i]) <= Capacity(run[i])
  {
    RunInv(run, i);
    ContentsFromHistory(run[i]);
  }

  /** Each step is a step of an unbounded queue: a whole batch appears at the end in one step,
      exactly the items handed over disappear from the front in one step, and every other
      step, refusals included, leaves the queue alone. */
  lemma StepRefinesQueue<T(!new)>(run: seq<Ring<T>>, i: nat, step: Step<T>)
    requires IsRun(run) && i < |run| && Wf(run[i]) && Enabled(run[i], step)
    ensures Wf(Apply(run[i], step))
    ensures QueueStep(run[i], step, Apply(run[i], step))
  {
    RunInv(run, i);
    StepInv(run[i], step);
    InvIsWf(Apply(run[i], step));
    QueueStepFromInv(run[i], step);
  }

  ghost predicate QueueStep<T>(s: Ring<T>, step: Step<T>, s': Ring<T>)
    requires Wf(s) && Enabled(s, step) && Wf(s')
  {
    if step.PublishHead? then Contents(s') == Contents(s) + s.prod.items
    else if step.PublishTail? then Contents(s) == s.cons.out + Contents(s')
    else Contents(s') == Contents(s)
  }

  lemma DropOfConcat<T>(a: seq<T>, b: seq<T>, t: nat)
    requires t <= |a|
    ensures (a + b)[t..] == a[t..] + b
  {
  }

  lemma RemoveFront<T>(a: seq<T>, t: nat, c: nat)
    requires t + c <= |a|
    ensures a[t..] == a[t..t + c] + a[t + c..]
  {
  }

  lemma StepHistory<T>(s: Ring<T>, step: Step<T>)
    requires Wf(s) && Enabled(s, step)
    ensures Apply(s, step).accepted == if step.PublishHead? then s.accepted + s.prod.items else s.accepted
    ensures Apply(s, step).delivered == if step.PublishTail? then s.delivered + s.cons.out else s.delivered
  {
  }

  lemma HistoryFacts<T>(s: Ring<T>, step: Step<T>)
    requires Inv(s) && Wf(s) && Enabled(s, step)
    ensures |s.delivered| <= |s.accepted|
    ensures step.PublishTail? ==> |s.delivered| + s.cons.count <= |s.accepted|
                                  && s.cons.out == s.accepted[|s.delivered|..|s.delivered| + s.cons.count]
  {
  }

  lemma QueueStepFromInv<T>(s: Ring<T>, step: Step<T>)
    requires Inv(s) && Wf(s) && Enabled(s, step)
    requires Inv(Apply(s, step)) && Wf(Apply(s, step))
    ensures QueueStep(s, step, Apply(s, step))
  {
    hide Inv, Contents, Occupancy, Capacity, Apply;
    HistoryFacts(s, step);
    ContentsFromHistory(s);
    ContentsFromHistory(Apply(s, step));
    StepHistory(s, step);
    var s' := Apply(s, step);
    var d := |s.delivered|;
    DropOfConcat(s.accepted, if step.PublishHead? then s.prod.items else [], d);
    if step.PublishTail? {
      RemoveFront(s.accepted, d, s.cons.count);
    }
    assert s'.accepted[d..] == s.accepted[d..] + if step.PublishHead? then s.prod.items else [];
  }

  /** A slot is never read while it is being written. */
  lemma NoTornRead<T(!new)>(run: seq<Ring<T>>, k: nat, i: nat, j: nat)
    requires IsRun(run) && k < |run| && run[k].prod.PCopying? && run[k].cons.CCopying?
    requires i < |run[k].prod.items| && j < run[k].cons.count
    ensures Mask(run[k], run[k].prod.h + i) != Mask(run[k], run[k].cons.t + j)
  {
    RunInv(run, k);
    DistinctSlots(run[k], i, j);
  }

  lemma DistinctSlots<T>(s: Ring<T>, i: nat, j: nat)
    requires Inv(s) && s.prod.PCopying? && s.cons.CCopying?
    requires i < |s.prod.items| && j < s.cons.count
    ensures Mask(s, s.prod.h + i) != Mask(s, s.cons.t + j)
  {
    hide Stored, Mask, Slot, Size;
    var h, t, n := |s.accepted|, |s.delivered|, Size(s);
    assert t + j < h + i < t + n;
    SlotOf(s, h, i);
    SlotOf(s, t, j);
    if Slot(h + i, n) == Slot(t + j, n) {
      SlotInjective(t + j, h + i, n);
    }
  }

  /** A stale index of the peer only makes a guard more cautious: a push the producer lets
      through on its copy of the tail would also pass on the tail as it now is, and the items
      the consumer sees through its copy of the head are among those now published. */
  lemma StaleIndexIsCautious<T(!new)>(run: seq<Ring<T>>, k: nat)
    requires IsRun(run) && k < |run|
    ensures Wf(run[k])
    ensures CautiousPush(run[k]) && CautiousPop(run[k])
  {
    RunInv(run, k);
    PushIsCautious(run[k]);
    PopIsCautious(run[k]);
  }

  predicate CautiousPush<T>(s: Ring<T>)
    requires Wf(s)
  {
    s.prod.PHasTail? && !Refuses(s, s.prod.h, s.prod.t, |s.prod.items|)
    ==> !Refuses(s, s.prod.h, s.tail, |s.prod.items|)
  }

  predicate CautiousPop<T>(s: Ring<T>)
    requires Wf(s)
  {
    s.cons.CHasHead? ==> Mask(s, Sub32(s.cons.h, s.cons.t)) <= Mask(s, Sub32(s.head, s.cons.t))
  }

  lemma PushIsCautious<T>(s: Ring<T>)
    requires Inv(s) && Wf(s)
    ensures CautiousPush(s)
  {
    hide Stored, Slot;
    var n, h, t := Size(s), |s.accepted|, |s.delivered|;
    if s.prod.PHasTail? && !Refuses(s, s.prod.h, s.prod.t, |s.prod.items|) {
      RoomIsReal(s);
      if s.variant.Batch? {
        MaskedDistance(h, t, s.bits);
      } else {
        SlotOf(s, h, 1);
        if Slot(h + 1, n) == Slot(t, n) {
          SlotInjective(t, h + 1, n);
        }
      }
    }
  }

  lemma PopIsCautious<T>(s: Ring<T>)
    requires Inv(s) && Wf(s)
    ensures CautiousPop(s)
  {
    if s.cons.CHasHead? {
      MaskedDistance(s.cons.seen, |s.delivered|, s.bits);
      MaskedDistance(|s.accepted|, |s.delivered|, s.bits);
    }
  }
}
