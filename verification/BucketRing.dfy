/**
 The percentile plugin's per-minute statistics (plugins/percentile/percentile.c): a ring of
 60 one-minute buckets against a plain fold over the whole sample history.
 */
module BucketRing {
  import opened Bits

  const BUCKET_MAX: nat := 60
  const MINUTE_MS: nat := 60_000
  const U64_MAX: nat := 0xFFFF_FFFF_FFFF_FFFF

  type Rtt = r: int | 0 <= r <= U64_MAX

  datatype Sample = Sample(tsMs: nat, rttUs: Rtt)

  datatype Stat = Stat(min: Rtt, max: Rtt, sum: nat, count: nat)

  datatype Bucket = Bucket(startMs: nat, stat: Stat)

  /** The result of a window query; `valid` is false when there is nothing to report. */
  datatype Stats = Stats(minUs: nat, maxUs: nat, avgUs: nat, valid: bool)

  const EMPTY: Stat := Stat(U64_MAX, 0, 0, 0)

  function BucketStart(tsMs: nat): nat {
    tsMs / MINUTE_MS * MINUTE_MS
  }

  function Add(s: Stat, r: Rtt): Stat {
    Stat(if r < s.min then r else s.min, if r > s.max then r else s.max, s.sum + r, s.count + 1)
  }

  function Merge(a: Stat, b: Stat): Stat {
    Stat(if b.min < a.min then b.min else a.min,
         if b.max > a.max then b.max else a.max,
         a.sum + b.sum, a.count + b.count)
  }

  function Report(s: Stat): Stats {
    if s.count == 0 then Stats(0, 0, 0, false) else Stats(s.min, s.max, s.sum / s.count, true)
  }

  // ----- the reference: folds over the history

  ghost predicate Chronological(h: seq<Sample>) {
    forall i, j :: 0 <= i < j < |h| ==> h[i].tsMs <= h[j].tsMs
  }

  /** All samples whose minute is not before the cutoff. */
  function Since(h: seq<Sample>, cutoff: nat): Stat {
    if h == [] then EMPTY
    else
      var s, before := h[|h| - 1], Since(h[..|h| - 1], cutoff);
      if BucketStart(s.tsMs) >= cutoff then Add(before, s.rttUs) else before
  }

  /** The distinct minutes sampled. */
  function Minutes(h: seq<Sample>): set<nat> {
    if h == [] then {} else Minutes(h[..|h| - 1]) + {BucketStart(h[|h| - 1].tsMs)}
  }

  function Later(minutes: set<nat>, m: nat): set<nat> {
    set x | x in minutes && x > m
  }

  /** All samples whose minute is among the last k distinct sampled minutes of `all`. */
  function AmongLast(h: seq<Sample>, all: seq<Sample>, k: nat): Stat {
    if h == [] then EMPTY
    else
      var s, before := h[|h| - 1], AmongLast(h[..|h| - 1], all, k);
      if |Later(Minutes(all), BucketStart(s.tsMs))| < k then Add(before, s.rttUs) else before
  }

  // ----- every bucket a history opens

  function Buckets(h: seq<Sample>): seq<Bucket> {
    if h == [] then []
    else
      var s, bs := h[|h| - 1], Buckets(h[..|h| - 1]);
      var start := BucketStart(s.tsMs);
      if bs != [] && bs[|bs| - 1].startMs == start then
        bs[..|bs| - 1] + [Bucket(start, Add(bs[|bs| - 1].stat, s.rttUs))]
      else bs + [Bucket(start, Add(EMPTY, s.rttUs))]
  }

  function MergeAll(bs: seq<Bucket>): Stat {
    if bs == [] then EMPTY else Merge(MergeAll(bs[..|bs| - 1]), bs[|bs| - 1].stat)
  }

  ghost predicate Ascending(bs: seq<Bucket>) {
    forall i, j :: 0 <= i < j < |bs| ==> bs[i].startMs < bs[j].startMs
  }

  lemma StartMonotone(a: nat, b: nat)
    requires a <= b
    ensures BucketStart(a) <= BucketStart(b)
  {
  }

  ghost predicate NoneEmpty(bs: seq<Bucket>) {
    forall i :: 0 <= i < |bs| ==> bs[i].stat.count >= 1
  }

  lemma AscendSnoc(bs: seq<Bucket>, b: Bucket)
    requires Ascending(bs) && NoneEmpty(bs) && b.stat.count >= 1
    ensures (bs == [] || bs[|bs| - 1].startMs < b.startMs) ==> Ascending(bs + [b]) && NoneEmpty(bs + [b])
    ensures bs != [] && bs[|bs| - 1].startMs == b.startMs ==>
              Ascending(bs[..|bs| - 1] + [b]) && NoneEmpty(bs[..|bs| - 1] + [b])
  {
  }

  lemma {:induction false} BucketsAscend(h: seq<Sample>)
    requires Chronological(h)
    ensures Ascending(Buckets(h)) && NoneEmpty(Buckets(h))
    ensures h == [] <==> Buckets(h) == []
    ensures h != [] ==> Buckets(h)[|Buckets(h)| - 1].startMs == BucketStart(h[|h| - 1].tsMs)
  {
    NoBuckets();
    hide Buckets, BucketStart, Ascending, NoneEmpty;
    if h != [] {
      var p, s := h[..|h| - 1], h[|h| - 1];
      BucketsAscend(p);
      if p != [] {
        StartMonotone(p[|p| - 1].tsMs, s.tsMs);
      }
      BucketsSnoc(p, s);
      assert h == p + [s];
      AscendStep(Buckets(p), BucketStart(s.tsMs), s.rttUs);
    }
  }

  lemma NoBuckets()
    ensures Buckets([]) == [] && Ascending([]) && NoneEmpty([])
  {
  }

  /** One more sample, in the newest bucket or in a later one. */
  lemma AscendStep(bs: seq<Bucket>, start: nat, r: Rtt)
    requires Ascending(bs) && NoneEmpty(bs) && (bs != [] ==> bs[|bs| - 1].startMs <= start)
    ensures var bs' := if bs != [] && bs[|bs| - 1].startMs == start
                       then bs[..|bs| - 1] + [Bucket(start, Add(bs[|bs| - 1].stat, r))]
                       else bs + [Bucket(start, Add(EMPTY, r))];
            Ascending(bs') && NoneEmpty(bs') && bs' != [] && bs'[|bs'| - 1].startMs == start
  {
    hide Ascending, NoneEmpty;
    AscendSnoc(bs, Bucket(start, Add(EMPTY, r)));
    if bs != [] {
      AscendSnoc(bs, Bucket(start, Add(bs[|bs| - 1].stat, r)));
    }
  }

  lemma MergeSnoc(bs: seq<Bucket>, b: Bucket)
    ensures MergeAll(bs + [b]) == Merge(MergeAll(bs), b.stat)
  {
    assert (bs + [b])[..|bs|] == bs;
  }

  lemma MergeAdd(a: Stat, b: Stat, r: Rtt)
    ensures Merge(a, Add(b, r)) == Add(Merge(a, b), r)
  {
  }

  lemma MergeEmpty(a: Stat)
    ensures Merge(a, EMPTY) == a && Merge(EMPTY, a) == a
  {
  }

  /** Samples before the cutoff minute contribute nothing. */
  lemma {:induction false} SinceOfOlder(h: seq<Sample>, cutoff: nat)
    requires forall i :: 0 <= i < |h| ==> BucketStart(h[i].tsMs) < cutoff
    ensures Since(h, cutoff) == EMPTY
  {
    if h != [] {
      SinceOfOlder(h[..|h| - 1], cutoff);
    }
  }

  lemma OlderThanNew(h: seq<Sample>, start: nat)
    requires Chronological(h) && h != [] && BucketStart(h[|h| - 1].tsMs) < start
    ensures forall i :: 0 <= i < |h| ==> BucketStart(h[i].tsMs) < start
  {
    forall i | 0 <= i < |h|
      ensures BucketStart(h[i].tsMs) < start
    {
      StartMonotone(h[i].tsMs, h[|h| - 1].tsMs);
    }
  }

  lemma BucketsSnoc(p: seq<Sample>, s: Sample)
    ensures var bs, start := Buckets(p), BucketStart(s.tsMs);
            Buckets(p + [s]) == if bs != [] && bs[|bs| - 1].startMs == start
                                then bs[..|bs| - 1] + [Bucket(start, Add(bs[|bs| - 1].stat, s.rttUs))]
                                else bs + [Bucket(start, Add(EMPTY, s.rttUs))]
  {
    assert (p + [s])[..|p|] == p;
  }

  lemma SinceSnoc(p: seq<Sample>, s: Sample, cutoff: nat)
    ensures Since(p + [s], cutoff) ==
            if BucketStart(s.tsMs) >= cutoff then Add(Since(p, cutoff), s.rttUs) else Since(p, cutoff)
  {
    assert (p + [s])[..|p|] == p;
  }

  /** Merging the buckets from any one on gives the fold over all samples from its minute on. */
  ghost predicate Folds(bs: seq<Bucket>, h: seq<Sample>) {
    forall j :: 0 <= j < |bs| ==> MergeAll(bs[j..]) == Since(h, bs[j].startMs)
  }

  lemma ChronologicalPrefix(h: seq<Sample>)
    requires Chronological(h) && h != []
    ensures Chronological(h[..|h| - 1])
    ensures |h| > 1 ==> h[|h| - 2].tsMs <= h[|h| - 1].tsMs
  {
  }

  lemma {:induction false} BucketsFoldHistory(h: seq<Sample>)
    requires Chronological(h)
    ensures Folds(Buckets(h), h)
  {
    if h != [] {
      ChronologicalPrefix(h);
      hide *;
      var p, s := h[..|h| - 1], h[|h| - 1];
      assert h == p + [s];
      BucketsFoldHistory(p);
      BucketsAscend(p);
      BucketsSnoc(p, s);
      if p != [] {
        StartMonotone(p[|p| - 1].tsMs, s.tsMs);
        if BucketStart(p[|p| - 1].tsMs) == BucketStart(s.tsMs) {
          FoldsExtend(p, s, Buckets(p));
        } else {
          OlderThanNew(p, BucketStart(s.tsMs));
          FoldsOpen(p, s, Buckets(p));
        }
      } else {
        FoldsOpen(p, s, Buckets(p));
      }
    }
  }

  lemma FoldsExtend(p: seq<Sample>, s: Sample, bs: seq<Bucket>)
    requires Ascending(bs) && Folds(bs, p) && bs != [] && bs[|bs| - 1].startMs == BucketStart(s.tsMs)
    ensures Folds(bs[..|bs| - 1] + [Bucket(BucketStart(s.tsMs), Add(bs[|bs| - 1].stat, s.rttUs))], p + [s])
  {
    hide Add, Merge, BucketStart, Since, MergeAll, Ascending;
    var bs' := bs[..|bs| - 1] + [Bucket(BucketStart(s.tsMs), Add(bs[|bs| - 1].stat, s.rttUs))];
    forall j | 0 <= j < |bs'|
      ensures MergeAll(bs'[j..]) == Since(p + [s], bs'[j].startMs)
    {
      ExtendLast(p, s, bs, j);
    }
  }

  lemma FoldsOpen(p: seq<Sample>, s: Sample, bs: seq<Bucket>)
    requires Folds(bs, p) && Ascending(bs) && (bs == [] || bs[|bs| - 1].startMs < BucketStart(s.tsMs))
    requires forall i :: 0 <= i < |p| ==> BucketStart(p[i].tsMs) < BucketStart(s.tsMs)
    ensures Folds(bs + [Bucket(BucketStart(s.tsMs), Add(EMPTY, s.rttUs))], p + [s])
  {
    hide Add, Merge, BucketStart, Since, MergeAll;
    var bs' := bs + [Bucket(BucketStart(s.tsMs), Add(EMPTY, s.rttUs))];
    forall j | 0 <= j < |bs'|
      ensures MergeAll(bs'[j..]) == Since(p + [s], bs'[j].startMs)
    {
      if j < |bs| {
        AppendAfter(p, s, bs, j);
      } else {
        OpenFirst(p, s, bs);
      }
    }
  }

  lemma ExtendLast(p: seq<Sample>, s: Sample, bs: seq<Bucket>, j: nat)
    requires bs != [] && bs[|bs| - 1].startMs == BucketStart(s.tsMs) && Ascending(bs) && j < |bs|
    requires MergeAll(bs[j..]) == Since(p, bs[j].startMs)
    ensures var upd := Bucket(BucketStart(s.tsMs), Add(bs[|bs| - 1].stat, s.rttUs));
            var bs' := bs[..|bs| - 1] + [upd];
            MergeAll(bs'[j..]) == Since(p + [s], bs'[j].startMs)
  {
    hide Add, Merge, BucketStart, Since, MergeAll;
    var n, last := |bs| - 1, bs[|bs| - 1];
    var upd := Bucket(last.startMs, Add(last.stat, s.rttUs));
    var bs' := bs[..n] + [upd];
    assert bs[j..] == bs[j..n] + [last];
    assert bs'[j..] == bs[j..n] + [upd];
    MergeSnoc(bs[j..n], last);
    MergeSnoc(bs[j..n], upd);
    MergeAdd(MergeAll(bs[j..n]), last.stat, s.rttUs);
    SinceSnoc(p, s, bs[j].startMs);
  }

  lemma AppendAfter(p: seq<Sample>, s: Sample, bs: seq<Bucket>, j: nat)
    requires j < |bs| && bs[j].startMs <= BucketStart(s.tsMs)
    requires MergeAll(bs[j..]) == Since(p, bs[j].startMs)
    ensures var bs' := bs + [Bucket(BucketStart(s.tsMs), Add(EMPTY, s.rttUs))];
            MergeAll(bs'[j..]) == Since(p + [s], bs'[j].startMs)
  {
    hide Add, Merge, BucketStart, Since, MergeAll;
    var added := Bucket(BucketStart(s.tsMs), Add(EMPTY, s.rttUs));
    assert (bs + [added])[j..] == bs[j..] + [added];
    MergeSnoc(bs[j..], added);
    MergeAdd(MergeAll(bs[j..]), EMPTY, s.rttUs);
    MergeEmpty(MergeAll(bs[j..]));
    SinceSnoc(p, s, bs[j].startMs);
  }

  lemma OpenFirst(p: seq<Sample>, s: Sample, bs: seq<Bucket>)
    requires forall i :: 0 <= i < |p| ==> BucketStart(p[i].tsMs) < BucketStart(s.tsMs)
    ensures var bs' := bs + [Bucket(BucketStart(s.tsMs), Add(EMPTY, s.rttUs))];
            MergeAll(bs'[|bs|..]) == Since(p + [s], BucketStart(s.tsMs))
  {
    hide Add, Merge, BucketStart, Since, MergeAll;
    var start := BucketStart(s.tsMs);
    var added := Bucket(start, Add(EMPTY, s.rttUs));
    assert (bs + [added])[|bs|..] == [] + [added];
    MergeSnoc([], added);
    MergeNothing();
    MergeEmpty(added.stat);
    SinceSnoc(p, s, start);
    SinceOfOlder(p, start);
  }

  lemma MergeNothing()
    ensures MergeAll([]) == EMPTY
  {
  }

  // ----- the last k distinct minutes

  function Starts(bs: seq<Bucket>): set<nat> {
    if bs == [] then {} else Starts(bs[..|bs| - 1]) + {bs[|bs| - 1].startMs}
  }

  lemma {:induction false} StartsBounded(bs: seq<Bucket>, x: nat)
    requires Ascending(bs) && x in Starts(bs)
    ensures bs != [] && x <= bs[|bs| - 1].startMs
  {
    var n := |bs| - 1;
    if x in Starts(bs[..n]) {
      StartsBounded(bs[..n], x);
    }
  }

  lemma {:induction false} StartIndex(bs: seq<Bucket>, x: nat) returns (j: nat)
    requires x in Starts(bs)
    ensures j < |bs| && bs[j].startMs == x
  {
    j := |bs| - 1;
    if bs[j].startMs != x {
      j := StartIndex(bs[..|bs| - 1], x);
    }
  }

  /** In an ascending list, as many starts are later than the j-th as follow it. */
  lemma {:induction false} LaterCount(bs: seq<Bucket>, j: nat)
    requires Ascending(bs) && j < |bs|
    ensures |Later(Starts(bs), bs[j].startMs)| == |bs| - 1 - j
  {
    var n, m := |bs| - 1, bs[j].startMs;
    if j == n {
      forall x | x in Starts(bs)
        ensures x <= m
      {
        StartsBounded(bs, x);
      }
      assert Later(Starts(bs), m) == {};
    } else {
      LaterCount(bs[..n], j);
      assert bs[n].startMs !in Starts(bs[..n]) by {
        if bs[n].startMs in Starts(bs[..n]) {
          StartsBounded(bs[..n], bs[n].startMs);
        }
      }
      assert Later(Starts(bs), m) == Later(Starts(bs[..n]), m) + {bs[n].startMs};
    }
  }

  lemma {:induction false} MinutesAreStarts(h: seq<Sample>)
    ensures Minutes(h) == Starts(Buckets(h))
  {
    if h != [] {
      hide Add, BucketStart;
      MinutesAreStarts(h[..|h| - 1]);
    }
  }

  lemma {:induction false} MinuteOfSample(h: seq<Sample>, i: nat)
    requires i < |h|
    ensures BucketStart(h[i].tsMs) in Minutes(h)
  {
    if i < |h| - 1 {
      MinuteOfSample(h[..|h| - 1], i);
    }
  }

  /** The start of the k-th last bucket, or of the first when there are fewer. */
  function Cutoff(bs: seq<Bucket>, k: nat): nat
    requires bs != [] && k > 0
  {
    bs[if k < |bs| then |bs| - k else 0].startMs
  }

  lemma MinuteInWindow(h: seq<Sample>, i: nat, k: nat)
    requires Chronological(h) && i < |h| && k > 0
    ensures Buckets(h) != []
    ensures BucketStart(h[i].tsMs) >= Cutoff(Buckets(h), k) <==> |Later(Minutes(h), BucketStart(h[i].tsMs))| < k
  {
    hide Buckets, Later, Minutes, BucketStart, Starts;
    BucketsAscend(h);
    MinutesAreStarts(h);
    MinuteOfSample(h, i);
    var j := StartIndex(Buckets(h), BucketStart(h[i].tsMs));
    LaterCount(Buckets(h), j);
  }

  /** A fold from a cutoff on is the fold over the last k distinct minutes. */
  lemma {:induction false} SinceIsAmongLast(h: seq<Sample>, all: seq<Sample>, k: nat)
    requires h <= all && Chronological(all) && all != [] && k > 0 && Buckets(all) != []
    ensures Since(h, Cutoff(Buckets(all), k)) == AmongLast(h, all, k)
  {
    if h != [] {
      hide Buckets, BucketStart, Cutoff, Later, Minutes, Add, Chronological;
      SinceIsAmongLast(h[..|h| - 1], all, k);
      MinuteInWindow(all, |h| - 1, k);
    }
  }

  // ----- the ring

  function RingSlot(k: nat): (r: nat)
    ensures r < BUCKET_MAX
  {
    k % BUCKET_MAX
  }

  lemma RingIndex(len: nat, n: nat, i: nat)
    requires n <= len && i <= n <= BUCKET_MAX
    ensures (RingSlot(len) + BUCKET_MAX - n + i) % BUCKET_MAX == RingSlot(len - n + i)
  {
    ModAddMod(len, BUCKET_MAX - n + i, BUCKET_MAX);
    DivModUnique(len - n + i + BUCKET_MAX, (len - n + i) / BUCKET_MAX + 1, (len - n + i) % BUCKET_MAX, BUCKET_MAX);
  }

  lemma SlotsDiffer(i: nat, j: nat)
    requires i < j < i + BUCKET_MAX
    ensures RingSlot(i) != RingSlot(j)
  {
    if RingSlot(i) == RingSlot(j) {
      ModInjective(i, j, BUCKET_MAX);
    }
  }

  function Depth(bs: seq<Bucket>): nat {
    if |bs| < BUCKET_MAX then |bs| else BUCKET_MAX
  }

  /** Slot k mod 60 holds bucket k, for the last 60 buckets. */
  ghost predicate Holds(slots: seq<Bucket>, bs: seq<Bucket>)
    requires |slots| == BUCKET_MAX
  {
    forall k: nat {:trigger RingSlot(k)} :: |bs| - Depth(bs) <= k < |bs| ==> slots[RingSlot(k)] == bs[k]
  }

  lemma HoldsReplace(slots: seq<Bucket>, bs: seq<Bucket>, b: Bucket)
    requires |slots| == BUCKET_MAX && Holds(slots, bs) && bs != []
    ensures Holds(slots[RingSlot(|bs| - 1) := b], bs[..|bs| - 1] + [b])
  {
    forall k: nat | |bs| - Depth(bs) <= k < |bs| - 1
      ensures RingSlot(k) != RingSlot(|bs| - 1)
    {
      SlotsDiffer(k, |bs| - 1);
    }
  }

  lemma HoldsAppend(slots: seq<Bucket>, bs: seq<Bucket>, b: Bucket)
    requires |slots| == BUCKET_MAX && Holds(slots, bs)
    ensures Holds(slots[RingSlot(|bs|) := b], bs + [b])
  {
    forall k: nat | |bs| + 1 - Depth(bs + [b]) <= k < |bs|
      ensures RingSlot(k) != RingSlot(|bs|)
    {
      SlotsDiffer(k, |bs|);
    }
  }

  /** The samples the window query is about: those of the last min(n, 60) distinct minutes. */
  function WindowOf(h: seq<Sample>, n: nat): Stat {
    AmongLast(h, h, if n < BUCKET_MAX then n else BUCKET_MAX)
  }

  lemma FoldAt(h: seq<Sample>, bs: seq<Bucket>, n: nat)
    requires Folds(bs, h) && bs != [] && n > 0
    ensures var m := if n < Depth(bs) then n else Depth(bs);
            Partial(bs, |bs| - m, |bs|) == Since(h, bs[|bs| - m].startMs)
  {
    hide MergeAll, Since;
    var m := if n < Depth(bs) then n else Depth(bs);
    assert bs[|bs| - m..] == bs[|bs| - m..|bs|];
  }

  /** The ring's own computation over the newest m buckets is the reference fold. */
  lemma WindowIsReference(h: seq<Sample>, n: nat)
    requires Chronological(h) && h != [] && n > 0
    ensures var bs := Buckets(h);
            var m := if n < Depth(bs) then n else Depth(bs);
            m <= |bs| && Partial(bs, |bs| - m, |bs|) == WindowOf(h, n)
  {
    hide Buckets, Since, MergeAll, AmongLast, Ascending, NoneEmpty, Chronological, Partial, Folds;
    BucketsAscend(h);
    BucketsFoldHistory(h);
    var bs, k := Buckets(h), if n < BUCKET_MAX then n else BUCKET_MAX;
    SinceIsAmongLast(h, h, k);
    FoldAt(h, bs, n);
    var m := if n < Depth(bs) then n else Depth(bs);
    assert Cutoff(bs, k) == bs[|bs| - m].startMs;
  }

  class Ring {
    const buckets: array<Bucket>
    var head: nat
    var count: nat
    ghost var history: seq<Sample>

    /** The ring holds the last buckets of the history. */
    ghost predicate Valid()
      reads this, buckets
    {
      && buckets.Length == BUCKET_MAX
      && Chronological(history)
      && head == RingSlot(|Buckets(history)|)
      && count == Depth(Buckets(history))
      && Holds(buckets[..], Buckets(history))
    }

    constructor ()
      ensures Valid() && history == [] && fresh(buckets)
    {
      buckets := new Bucket[BUCKET_MAX](_ => Bucket(0, Stat(0, 0, 0, 0)));
      head, count, history := 0, 0, [];
    }

    /** The slot of the bucket for this minute, or none. */
    method FindBucket(start: nat) returns (found: bool, idx: nat)
      requires Valid() && (history != [] ==> BucketStart(history[|history| - 1].tsMs) <= start)
      ensures idx < BUCKET_MAX
      ensures found <==> history != [] && BucketStart(history[|history| - 1].tsMs) == start
      ensures found ==> Buckets(history) != [] && idx == RingSlot(|Buckets(history)| - 1)
    {
      ghost var bs := Buckets(history);
      BucketsAscend(history);
      hide Buckets, BucketStart, NoneEmpty, RingSlot, Holds, Chronological, Ascending;
      for i := 0 to count
        invariant forall k :: |bs| - count <= k < |bs| - count + i ==> bs[k].startMs != start
      {
        idx := (head + BUCKET_MAX - count + i) % BUCKET_MAX;
        ghost var k := |bs| - count + i;
        RingIndex(|bs|, count, i);
        HeldAt(buckets[..], bs, k);
        NewestOrOlder(bs, k, start);
        assert idx == RingSlot(k) && buckets[idx] == bs[k];
        if buckets[idx].startMs == start {
          return true, idx;
        }
      }
      return false, 0;
    }

    /** get_current_bucket and bucket_add: the ring follows the history. */
    method AddSample(tsMs: nat, rttUs: Rtt)
      requires Valid() && (history != [] ==> history[|history| - 1].tsMs <= tsMs)
      modifies this, buckets
      ensures Valid() && history == old(history) + [Sample(tsMs, rttUs)]
    {
      hide Buckets, Holds, Add, BucketStart, Chronological, RingSlot, Depth;
      ghost var slots := buckets[..];
      Follow(slots, history, Sample(tsMs, rttUs));
      var start := BucketStart(tsMs);
      var found, idx := FindBucket(start);
      if !found {
        idx := head;
        buckets[idx] := Bucket(start, Stat(U64_MAX, 0, 0, 0));
        head := (head + 1) % BUCKET_MAX;
        if count < BUCKET_MAX {
          count := count + 1;
        }
      }
      var b := buckets[idx];
      buckets[idx] := b.(stat := Add(b.stat, rttUs));
      history := history + [Sample(tsMs, rttUs)];
      assert buckets[..] == slots[idx := buckets[idx]];
    }

    /** For every history with non-decreasing timestamps: minimum, maximum and floor average
        of the samples whose minute is among the last min(n, 60) distinct sampled minutes. */
    method ComputeWindowStats(numBuckets: nat) returns (s: Stats)
      requires Valid()
      ensures s == if history == [] || numBuckets == 0 then Stats(0, 0, 0, false)
                   else Report(WindowOf(history, numBuckets))
    {
      BucketsAscend(history);
      ghost var bs := Buckets(history);
      hide Buckets, WindowOf, Partial, RingSlot, Merge, Ascending, Holds, NoneEmpty, Report, Chronological;
      if count == 0 || numBuckets == 0 {
        return Stats(0, 0, 0, false);
      }
      WindowIsReference(history, numBuckets);
      var n := if numBuckets < count then numBuckets else count;
      var acc := MergeNewest(n);
      return Report(acc);
    }

    /** The accumulation loop over the newest n buckets. */
    method MergeNewest(n: nat) returns (acc: Stat)
      requires Valid() && n <= count
      ensures n <= |Buckets(history)| && acc == Partial(Buckets(history), |Buckets(history)| - n, |Buckets(history)|)
    {
      hide Buckets, Partial, RingSlot, Merge, Ascending, Holds, NoneEmpty, Chronological;
      BucketsAscend(history);
      ghost var bs, slots := Buckets(history), buckets[..];
      ghost var lo := |bs| - n;
      acc := EMPTY;
      PartialNone(bs, lo);
      var i := 0;
      while i < n
        invariant 0 <= i <= n && acc == Partial(bs, lo, lo + i)
      {
        var idx := (head + BUCKET_MAX - n + i) % BUCKET_MAX;
        Newest(slots, bs, n, i);
        var b := buckets[idx];
        assert b == slots[idx];
        i := i + 1;
        if b.stat.count == 0 {
          continue;
        }
        acc := Merge(acc, b.stat);
      }
    }
  }

  /** The i-th of the newest n buckets, by its slot, is the next one to merge. */
  lemma Newest(slots: seq<Bucket>, bs: seq<Bucket>, n: nat, i: nat)
    requires |slots| == BUCKET_MAX && Holds(slots, bs) && NoneEmpty(bs) && i < n <= Depth(bs)
    ensures var k := |bs| - n + i;
            var idx := (RingSlot(|bs|) + BUCKET_MAX - n + i) % BUCKET_MAX;
            && slots[idx].stat.count != 0
            && Partial(bs, |bs| - n, k + 1) == Merge(Partial(bs, |bs| - n, k), slots[idx].stat)
  {
    hide RingSlot, Partial, Merge, Holds, NoneEmpty;
    RingIndex(|bs|, n, i);
    HeldAt(slots, bs, |bs| - n + i);
    PartialStep(bs, |bs| - n, |bs| - n + i);
  }

  lemma NewestOrOlder(bs: seq<Bucket>, k: nat, start: nat)
    requires Ascending(bs) && k < |bs| && bs[|bs| - 1].startMs <= start
    ensures bs[k].startMs == start ==> k == |bs| - 1
  {
  }

  lemma HeldAt(slots: seq<Bucket>, bs: seq<Bucket>, k: nat)
    requires |slots| == BUCKET_MAX && Holds(slots, bs) && NoneEmpty(bs) && |bs| - Depth(bs) <= k < |bs|
    ensures slots[RingSlot(k)] == bs[k] && bs[k].stat.count != 0
  {
  }

  function Partial(bs: seq<Bucket>, lo: nat, hi: nat): Stat
    requires lo <= hi <= |bs|
  {
    MergeAll(bs[lo..hi])
  }

  lemma PartialNone(bs: seq<Bucket>, lo: nat)
    requires lo <= |bs|
    ensures Partial(bs, lo, lo) == EMPTY
  {
    assert bs[lo..lo] == [];
  }

  lemma PartialStep(bs: seq<Bucket>, lo: nat, k: nat)
    requires lo <= k < |bs|
    ensures Partial(bs, lo, k + 1) == Merge(Partial(bs, lo, k), bs[k].stat)
  {
    assert bs[lo..k + 1] == bs[lo..k] + [bs[k]];
    MergeSnoc(bs[lo..k], bs[k]);
  }

  /** What one more sample does to the slots. */
  lemma {:induction false} Follow(slots: seq<Bucket>, h: seq<Sample>, s: Sample)
    requires |slots| == BUCKET_MAX && Chronological(h) && Holds(slots, Buckets(h))
    requires h != [] ==> h[|h| - 1].tsMs <= s.tsMs
    ensures Chronological(h + [s])
    ensures h != [] ==> BucketStart(h[|h| - 1].tsMs) <= BucketStart(s.tsMs)
    ensures var start, bs, bs' := BucketStart(s.tsMs), Buckets(h), Buckets(h + [s]);
            if h != [] && BucketStart(h[|h| - 1].tsMs) == start then
              bs != [] && Replaced(slots, bs, bs', start, s.rttUs)
            else
              Appended(slots, bs, bs', start, s.rttUs)
  {
    hide Buckets, NoneEmpty, Ascending, Holds, BucketStart, Chronological, Replaced, Appended;
    ChronologicalSnoc(h, s);
    BucketsAscend(h);
    BucketsSnoc(h, s);
    if h != [] {
      StartMonotone(h[|h| - 1].tsMs, s.tsMs);
    }
    var bs, start := Buckets(h), BucketStart(s.tsMs);
    if h != [] && BucketStart(h[|h| - 1].tsMs) == start {
      ReplaceNewest(slots, bs, start, s.rttUs);
    } else {
      AppendNewest(slots, bs, start, s.rttUs);
    }
  }

  lemma ChronologicalSnoc(h: seq<Sample>, s: Sample)
    requires Chronological(h) && (h != [] ==> h[|h| - 1].tsMs <= s.tsMs)
    ensures Chronological(h + [s])
  {
  }

  /** The sample goes into the newest bucket, in its slot. */
  ghost predicate Replaced(slots: seq<Bucket>, bs: seq<Bucket>, bs': seq<Bucket>, start: nat, r: Rtt)
    requires |slots| == BUCKET_MAX && bs != []
  {
    var i := RingSlot(|bs| - 1);
    && RingSlot(|bs'|) == RingSlot(|bs|) && Depth(bs') == Depth(bs)
    && Holds(slots[i := Bucket(start, Add(slots[i].stat, r))], bs') && slots[i].startMs == start
  }

  /** The sample opens a bucket in the next slot. */
  ghost predicate Appended(slots: seq<Bucket>, bs: seq<Bucket>, bs': seq<Bucket>, start: nat, r: Rtt)
    requires |slots| == BUCKET_MAX
  {
    && (RingSlot(|bs|) + 1) % BUCKET_MAX == RingSlot(|bs'|)
    && Depth(bs') == (if Depth(bs) < BUCKET_MAX then Depth(bs) + 1 else Depth(bs))
    && Holds(slots[RingSlot(|bs|) := Bucket(start, Add(EMPTY, r))], bs')
  }

  lemma ReplaceNewest(slots: seq<Bucket>, bs: seq<Bucket>, start: nat, r: Rtt)
    requires |slots| == BUCKET_MAX && Holds(slots, bs) && bs != [] && bs[|bs| - 1].startMs == start
    ensures Replaced(slots, bs, bs[..|bs| - 1] + [Bucket(start, Add(bs[|bs| - 1].stat, r))], start, r)
  {
    hide Holds, RingSlot, Add;
    LastIsHeld(slots, bs);
    HoldsReplace(slots, bs, Bucket(start, Add(bs[|bs| - 1].stat, r)));
  }

  lemma AppendNewest(slots: seq<Bucket>, bs: seq<Bucket>, start: nat, r: Rtt)
    requires |slots| == BUCKET_MAX && Holds(slots, bs)
    ensures Appended(slots, bs, bs + [Bucket(start, Add(EMPTY, r))], start, r)
  {
    hide Holds, RingSlot, Add;
    HoldsAppend(slots, bs, Bucket(start, Add(EMPTY, r)));
    RingSuccessor(|bs|);
  }

  lemma LastIsHeld(slots: seq<Bucket>, bs: seq<Bucket>)
    requires |slots| == BUCKET_MAX && Holds(slots, bs) && bs != []
    ensures slots[RingSlot(|bs| - 1)] == bs[|bs| - 1]
  {
  }

  lemma RingSuccessor(len: nat)
    ensures (RingSlot(len) + 1) % BUCKET_MAX == RingSlot(len + 1)
  {
    ModAddMod(len, 1, BUCKET_MAX);
  }

  // ----- the average lies between the extremes

  ghost predicate Plausible(s: Stat) {
    s.count > 0 ==> s.min <= s.max && Between(s.count, s.min, s.max, s.sum)
  }

  /** n values between the bounds have this sum. */
  ghost predicate Between(n: nat, low: int, high: int, sum: int) {
    n * low <= sum <= n * high
  }

  lemma OneMore(n: nat, low: int, high: int, sum: int, low': int, high': int, r: int)
    requires Between(n, low, high, sum) && low' <= low && high <= high' && low' <= r <= high'
    ensures Between(n + 1, low', high', sum + r)
  {
    ScaleInt(low', low, n);
    ScaleInt(high, high', n);
  }

  lemma AddPlausible(s: Stat, r: Rtt)
    requires Plausible(s) && (s.count == 0 ==> s == EMPTY)
    ensures Plausible(Add(s, r))
  {
    hide Between;
    var t := Add(s, r);
    if s.count > 0 {
      OneMore(s.count, s.min, s.max, s.sum, t.min, t.max, r);
    } else {
      JustOne(r);
    }
  }

  lemma JustOne(r: int)
    ensures Between(1, r, r, r)
  {
  }

  lemma ScaleInt(a: int, b: int, c: nat)
    requires a <= b
    ensures c * a <= c * b
  {
    assert c * (b - a) >= 0;
  }

  lemma {:induction false} WindowPlausible(h: seq<Sample>, all: seq<Sample>, k: nat)
    ensures Plausible(AmongLast(h, all, k))
    ensures AmongLast(h, all, k).count == 0 ==> AmongLast(h, all, k) == EMPTY
  {
    if h != [] {
      hide Plausible, Later, Minutes;
      WindowPlausible(h[..|h| - 1], all, k);
      AddPlausible(AmongLast(h[..|h| - 1], all, k), h[|h| - 1].rttUs);
    }
  }

  lemma AverageBetween(s: Stat)
    requires Plausible(s) && s.count > 0
    ensures s.min <= s.sum / s.count <= s.max
  {
    var q, r := s.sum / s.count, s.sum % s.count;
    assert s.sum == q * s.count + r;
    if q < s.min {
      ScaleInt(q + 1, s.min, s.count);
    }
    if q > s.max {
      ScaleInt(s.max + 1, q, s.count);
    }
  }

  /** A reported average lies between the reported minimum and maximum. */
  lemma ReportedAverage(h: seq<Sample>, n: nat)
    ensures var s := Report(WindowOf(h, n)); s.valid ==> s.minUs <= s.avgUs <= s.maxUs
  {
    var k := if n < BUCKET_MAX then n else BUCKET_MAX;
    WindowPlausible(h, h, k);
    hide Plausible, AmongLast;
    if AmongLast(h, h, k).count > 0 {
      AverageBetween(AmongLast(h, h, k));
    }
  }

  // ----- the reference, written out on lists

  /** The minute numbers sampled. */
  function MinuteNumbers(h: seq<Sample>): set<nat> {
    if h == [] then {} else MinuteNumbers(h[..|h| - 1]) + {h[|h| - 1].tsMs / 60_000}
  }

  /** Fewer than k sampled minutes are later than this time's. */
  predicate Recent(all: seq<Sample>, tsMs: nat, k: nat) {
    |set m | m in MinuteNumbers(all) && m > tsMs / 60_000| < k
  }

  /** The round-trip times of the samples among the last k distinct sampled minutes, in order. */
  function Picked(h: seq<Sample>, all: seq<Sample>, k: nat): seq<Rtt> {
    if h == [] then []
    else Picked(h[..|h| - 1], all, k) + if Recent(all, h[|h| - 1].tsMs, k) then [h[|h| - 1].rttUs] else []
  }

  function Sum(rs: seq<Rtt>): nat {
    if rs == [] then 0 else Sum(rs[..|rs| - 1]) + rs[|rs| - 1]
  }

  /** Smallest, largest, sum and number. */
  ghost predicate Summarises(s: Stat, rs: seq<Rtt>) {
    && s.count == |rs| && s.sum == Sum(rs)
    && (forall i :: 0 <= i < |rs| ==> s.min <= rs[i] <= s.max)
    && (rs == [] ==> s == EMPTY)
    && (rs != [] ==> s.min in rs && s.max in rs)
  }

  lemma AddSummarises(s: Stat, rs: seq<Rtt>, r: Rtt)
    requires Summarises(s, rs)
    ensures Summarises(Add(s, r), rs + [r])
  {
    assert (rs + [r])[..|rs|] == rs && (rs + [r])[|rs|] == r;
  }

  lemma {:induction false} StartNumbers(h: seq<Sample>, m: nat)
    ensures m * 60_000 in Minutes(h) <==> m in MinuteNumbers(h)
    ensures forall x :: x in Minutes(h) ==> x / 60_000 * 60_000 == x
  {
    if h != [] {
      StartNumbers(h[..|h| - 1], m);
    }
  }

  lemma {:induction false} ScaledCard(a: set<nat>, b: set<nat>)
    requires forall x :: x in b ==> x / 60_000 in a && x / 60_000 * 60_000 == x
    requires forall m :: m in a ==> m * 60_000 in b
    ensures |a| == |b|
    decreases |a|
  {
    if a == {} {
      assert b == {};
    } else {
      var m :| m in a;
      assert m * 60_000 / 60_000 == m;
      ScaledCard(a - {m}, b - {m * 60_000});
    }
  }

  lemma RecentIsLater(all: seq<Sample>, tsMs: nat, k: nat)
    ensures Recent(all, tsMs, k) <==> |Later(Minutes(all), BucketStart(tsMs))| < k
  {
    var a := set m | m in MinuteNumbers(all) && m > tsMs / 60_000;
    var b := Later(Minutes(all), BucketStart(tsMs));
    forall m
      ensures m in a <==> m * 60_000 in b
    {
      if m >= 0 {
        StartNumbers(all, m);
      }
    }
    forall x | x in b
      ensures x / 60_000 in a && x / 60_000 * 60_000 == x
    {
      StartNumbers(all, x / 60_000);
    }
    ScaledCard(a, b);
  }

  lemma {:induction false} AmongLastSummarises(h: seq<Sample>, all: seq<Sample>, k: nat)
    ensures Summarises(AmongLast(h, all, k), Picked(h, all, k))
  {
    hide Recent, Later, Minutes, Summarises, Add, BucketStart;
    NoneSummarised();
    if h != [] {
      var before := Picked(h[..|h| - 1], all, k);
      AmongLastSummarises(h[..|h| - 1], all, k);
      RecentIsLater(all, h[|h| - 1].tsMs, k);
      AddSummarises(AmongLast(h[..|h| - 1], all, k), before, h[|h| - 1].rttUs);
      assert before + [] == before;
    }
  }

  lemma NoneSummarised()
    ensures Summarises(EMPTY, [])
  {
  }

  /** What a window query reports: over the samples whose minute is among the last min(n, 60) distinct
      sampled minutes, the smallest and largest round-trip time and the average rounded down. */
  lemma WindowReport(h: seq<Sample>, n: nat)
    ensures var s, rs := Report(WindowOf(h, n)), Picked(h, h, if n < 60 then n else 60);
            && (s.valid <==> rs != [])
            && (s.valid ==> s.minUs in rs && s.maxUs in rs && forall i :: 0 <= i < |rs| ==> s.minUs <= rs[i] <= s.maxUs)
            && (s.valid ==> s.avgUs * |rs| <= Sum(rs) < (s.avgUs + 1) * |rs|)
  {
    hide AmongLast, Picked;
    var k := if n < 60 then n else 60;
    AmongLastSummarises(h, h, k);
    var st := AmongLast(h, h, k);
    if st.count > 0 {
      RoundedDown(st.sum, st.count);
    }
  }

  lemma RoundedDown(a: nat, b: nat)
    requires b > 0
    ensures a / b * b <= a < (a / b + 1) * b
  {
    assert a == a / b * b + a % b;
  }
}
