/**
 The logic engine's probe schedule and its AIMD pacing (src/io/logic.c): which TTL and which
 16-bit sequence number the k-th probe carries, how often each TTL has been probed, and how
 the burst size follows the measured loss.
 */
module Schedule {
  import opened Bits

  const MAX_HOPS: nat := 64
  const TTL_CYCLE: nat := 30
  const SEQ_SPACE: nat := 65536
  const MAX_BURST: nat := 64
  const MIN_BURST: nat := 1
  const FIRST_BURST: nat := 28
  const ADJUST_PERIOD_US: nat := 250_000

  /** A probe request.  `probe` numbers the probes of one logic lifetime, for the proofs only. */
  datatype Intent = Intent(ttl: nat, seqNo: nat, stampUs: nat, integrity: nat, probe: nat)

  function TtlOf(k: nat): nat {
    1 + k % TTL_CYCLE
  }

  function SeqOf(k: nat): nat {
    k % SEQ_SPACE
  }

  /** `ttl << 16 | seq` for a 16-bit seq. */
  function Integrity(ttl: nat, seqNo: nat): nat {
    ttl * 65536 + seqNo
  }

  /** The k-th probe, stamped with the time of its burst. */
  function IntentOf(k: nat, stampUs: nat): Intent {
    Intent(TtlOf(k), SeqOf(k), stampUs, Integrity(TtlOf(k), SeqOf(k)), k)
  }

  /** How many of the first k probes went to a TTL. */
  function SentSoFar(k: nat, ttl: nat): nat {
    if k == 0 then 0 else SentSoFar(k - 1, ttl) + if TtlOf(k - 1) == ttl then 1 else 0
  }

  lemma CycleShare(k: nat, ttl: nat)
    requires 1 <= ttl <= TTL_CYCLE
    ensures (k + 1 + TTL_CYCLE - ttl) / TTL_CYCLE ==
            (k + TTL_CYCLE - ttl) / TTL_CYCLE + if TtlOf(k) == ttl then 1 else 0
  {
    var q, r := k / TTL_CYCLE, k % TTL_CYCLE;
    if r >= ttl {
      DivModUnique(k + TTL_CYCLE - ttl, q + 1, r - ttl, TTL_CYCLE);
      DivModUnique(k + 1 + TTL_CYCLE - ttl, q + 1, r + 1 - ttl, TTL_CYCLE);
    } else {
      DivModUnique(k + TTL_CYCLE - ttl, q, r + TTL_CYCLE - ttl, TTL_CYCLE);
      if r + 1 == ttl {
        DivModUnique(k + 1 + TTL_CYCLE - ttl, q + 1, 0, TTL_CYCLE);
      } else {
        DivModUnique(k + 1 + TTL_CYCLE - ttl, q, r + 1 + TTL_CYCLE - ttl, TTL_CYCLE);
      }
    }
  }

  /** The counters after k probes: the TTL cycle in closed form. */
  lemma {:induction false} SentClosedForm(k: nat, ttl: nat)
    ensures SentSoFar(k, ttl) == if 1 <= ttl <= TTL_CYCLE then (k + TTL_CYCLE - ttl) / TTL_CYCLE else 0
  {
    if k == 0 {
      if 1 <= ttl <= TTL_CYCLE {
        DivModUnique(TTL_CYCLE - ttl, 0, TTL_CYCLE - ttl, TTL_CYCLE);
      }
    } else {
      SentClosedForm(k - 1, ttl);
      if 1 <= ttl <= TTL_CYCLE {
        CycleShare(k - 1, ttl);
      }
    }
  }

  /** Every TTL gets its share: the counts differ by at most one, and no other hop is probed. */
  lemma SentIsBalanced(k: nat, a: nat, b: nat)
    requires 1 <= a <= TTL_CYCLE && 1 <= b <= TTL_CYCLE
    ensures SentSoFar(k, a) <= SentSoFar(k, b) + 1 && SentSoFar(k, b) <= SentSoFar(k, a) + 1
    ensures forall t :: t == 0 || t > TTL_CYCLE ==> SentSoFar(k, t) == 0
  {
    SentClosedForm(k, a);
    SentClosedForm(k, b);
    forall t | t == 0 || t > TTL_CYCLE
      ensures SentSoFar(k, t) == 0
    {
      SentClosedForm(k, t);
    }
  }

  /** A sequence number comes back only after the whole space has been used. */
  lemma SeqReuseDistance(i: nat, j: nat)
    requires i < j && SeqOf(i) == SeqOf(j)
    ensures j >= i + SEQ_SPACE
  {
  }

  lemma NextInCycle(k: nat)
    ensures TtlOf(k + 1) == if TtlOf(k) + 1 > 30 then 1 else TtlOf(k) + 1
    ensures SeqOf(k + 1) == (SeqOf(k) + 1) % SEQ_SPACE
    ensures 1 <= TtlOf(k) <= TTL_CYCLE
  {
    ModSuccessor(k, TTL_CYCLE);
    ModSuccessor(k, SEQ_SPACE);
  }

  lemma ModSuccessor(k: nat, n: nat)
    requires n > 1
    ensures (k + 1) % n == if k % n == n - 1 then 0 else k % n + 1
    ensures (k + 1) % n == (k % n + 1) % n
  {
    var q, r := k / n, k % n;
    assert k == q * n + r;
    if r == n - 1 {
      assert k + 1 == (q + 1) * n;
      DivModUnique(k + 1, q + 1, 0, n);
      DivModUnique(n, 1, 0, n);
    } else {
      DivModUnique(k + 1, q, r + 1, n);
      DivModUnique(r + 1, 0, r + 1, n);
    }
  }

  class Scheduler {
    var currentTtl: nat
    var currentSeq: nat
    const sent: array<nat>
    var probes: nat  // how many probes so far; the original keeps no such counter

    /** The scheduler's registers are those of a lifetime of `probes` probes. */
    ghost predicate Valid()
      reads this, sent
    {
      && sent.Length == MAX_HOPS
      && currentTtl == TtlOf(probes) && currentSeq == SeqOf(probes)
      && forall t :: 0 <= t < MAX_HOPS ==> sent[t] == SentSoFar(probes, t)
    }

    constructor ()
      ensures Valid() && probes == 0 && fresh(sent)
    {
      currentTtl, currentSeq, probes := 1, 0, 0;
      sent := new nat[MAX_HOPS](_ => 0);
    }

    /** One turn of the burst loop: the next probe of the schedule. */
    method StageProbe(now: nat) returns (intent: Intent)
      requires Valid()
      modifies this, sent
      ensures Valid() && probes == old(probes) + 1
      ensures intent == IntentOf(old(probes), now)
    {
      NextInCycle(probes);
      hide TtlOf, SeqOf;
      intent := Intent(currentTtl, currentSeq, now, Integrity(currentTtl, currentSeq), probes);
      sent[currentTtl] := sent[currentTtl] + 1;
      currentSeq := (currentSeq + 1) % SEQ_SPACE;
      currentTtl := currentTtl + 1;
      if currentTtl > 30 {
        currentTtl := 1;
      }
      probes := probes + 1;
    }

    /** The burst loop: the next `burst` probes of the schedule, in order. */
    method StageBurst(burst: nat, now: nat) returns (intents: seq<Intent>)
      requires Valid() && burst <= MAX_BURST
      modifies this, sent
      ensures Valid() && probes == old(probes) + burst
      ensures |intents| == burst
      ensures forall i :: 0 <= i < burst ==> intents[i] == IntentOf(old(probes) + i, now)
    {
      hide Valid, IntentOf;
      intents := [];
      for n := 0 to burst
        invariant Valid() && probes == old(probes) + n
        invariant |intents| == n
        invariant forall i :: 0 <= i < n ==> intents[i] == IntentOf(old(probes) + i, now)
      {
        var intent := StageProbe(now);
        intents := intents + [intent];
      }
    }
  }

  // ----- AIMD pacing

  datatype Pace = Pace(burst: nat, ewma: real)

  predicate InRange(p: Pace) {
    MIN_BURST <= p.burst <= MAX_BURST
  }

  /** One adjustment on a non-empty window: back off by a quarter above 35 % smoothed loss,
      probe for one more below 10 %. */
  function Adapt(p: Pace, sent: nat, recv: nat): Pace
    requires sent > 0
  {
    var loss := 1.0 - recv as real / sent as real;
    var e := p.ewma * 0.7 + loss * 0.3;
    if e > 0.35 then
      var b := p.burst * 3 / 4;
      Pace(if b < MIN_BURST then MIN_BURST else b, e)
    else if e < 0.10 then Pace(if p.burst < MAX_BURST then p.burst + 1 else p.burst, e)
    else Pace(p.burst, e)
  }

  /** A run of adjustments, one (sent, received) window each. */
  function Paced(p: Pace, windows: seq<(nat, nat)>): Pace
    requires forall w :: w in windows ==> w.0 > 0
  {
    if windows == [] then p
    else
      var last := |windows| - 1;
      assert windows[last] in windows;
      Adapt(Paced(p, windows[..last]), windows[last].0, windows[last].1)
  }

  /** Whatever the windows measure, the burst stays between 1 and 64. */
  lemma {:induction false} BurstStaysInRange(p: Pace, windows: seq<(nat, nat)>)
    requires InRange(p) && forall w :: w in windows ==> w.0 > 0
    ensures InRange(Paced(p, windows))
  {
    if windows != [] {
      BurstStaysInRange(p, windows[..|windows| - 1]);
    }
  }

  ghost predicate TotalLoss(windows: seq<(nat, nat)>) {
    forall w :: w in windows ==> w.0 > 0 && w.1 == 0
  }

  /** A gap that has shrunk to at most 7 / (7 + 3 m) of what it was. */
  ghost predicate Shrunk(gap: real, gap0: real, m: nat) {
    && (gap0 < 0.0 ==> gap < 0.0)
    && (gap0 >= 0.0 ==> 0.0 <= gap && gap * (7.0 + 3.0 * m as real) <= 7.0 * gap0)
  }

  /** Under total loss the distance of the average from 1 shrinks by 0.7 a window. */
  lemma {:induction false} GapShrinks(p: Pace, windows: seq<(nat, nat)>)
    requires TotalLoss(windows)
    ensures Shrunk(1.0 - Paced(p, windows).ewma, 1.0 - p.ewma, |windows|)
  {
    if windows != [] {
      hide Adapt, Shrunk;
      var last := |windows| - 1;
      GapShrinks(p, windows[..last]);
      var before := Paced(p, windows[..last]);
      assert windows[last] in windows;
      LossStep(before, windows[last].0);
      ShrinkStep(1.0 - before.ewma, 1.0 - p.ewma, last);
    }
  }

  lemma LossStep(p: Pace, sent: nat)
    requires sent > 0
    ensures 1.0 - Adapt(p, sent, 0).ewma == 0.7 * (1.0 - p.ewma)
  {
    assert 0 as real / sent as real == 0.0;
  }

  lemma ShrinkStep(gap: real, gap0: real, m: nat)
    requires Shrunk(gap, gap0, m)
    ensures Shrunk(0.7 * gap, gap0, m + 1)
  {
    if gap0 >= 0.0 {
      var x := m as real;
      assert (m + 1) as real == x + 1.0;
      assert gap * x >= 0.0;
      assert (0.7 * gap) * (7.0 + 3.0 * (x + 1.0)) == 7.0 * gap + 2.1 * (gap * x);
      assert gap * (7.0 + 3.0 * x) == 7.0 * gap + 3.0 * (gap * x);
    }
  }

  /** How many lossy windows it may take until the average passes 35 %. */
  function Patience(ewma: real): nat {
    if ewma > 1.0 then 0 else 4 * ((1.0 - ewma).Floor + 1)
  }

  lemma AverageGetsHigh(p: Pace, windows: seq<(nat, nat)>)
    requires TotalLoss(windows) && |windows| >= Patience(p.ewma)
    ensures Paced(p, windows).ewma > 0.35
  {
    GapShrinks(p, windows);
    var gap0 := 1.0 - p.ewma;
    if gap0 >= 0.0 {
      SmallGap(1.0 - Paced(p, windows).ewma, gap0, |windows| as real, gap0.Floor as real + 1.0);
    }
  }

  lemma SmallGap(gap: real, gap0: real, m: real, f: real)
    requires 0.0 < f && gap0 < f && m >= 4.0 * f && gap * (7.0 + 3.0 * m) <= 7.0 * gap0
    ensures gap < 0.65
  {
    ScaleMonotone(gap, 0.65, 7.0 + 3.0 * m);
  }

  lemma ScaleMonotone(a: real, b: real, c: real)
    requires c >= 0.0
    ensures a >= b ==> a * c >= b * c
  {
    if a >= b {
      assert (a - b) * c >= 0.0;
    }
  }

  /** The most the burst can be after m back-offs from 64. */
  function BackedOff(m: nat): nat {
    if m == 0 then MAX_BURST
    else var b := BackedOff(m - 1) * 3 / 4; if b < MIN_BURST then MIN_BURST else b
  }

  lemma {:induction false} BurstBacksOff(p: Pace, windows: seq<(nat, nat)>)
    requires InRange(p) && TotalLoss(windows) && |windows| >= Patience(p.ewma)
    ensures Paced(p, windows).burst <= BackedOff(|windows| - Patience(p.ewma))
    decreases |windows|
  {
    BurstStaysInRange(p, windows);
    if |windows| > Patience(p.ewma) {
      var last := |windows| - 1;
      BurstBacksOff(p, windows[..last]);
      AverageGetsHigh(p, windows);
      assert windows[last] in windows;
    }
  }

  lemma {:induction false} TwelveBackOffs(m: nat)
    requires m >= 12
    ensures BackedOff(m) == 1
  {
    if m == 12 {
      assert BackedOff(4) == 20;
      assert BackedOff(8) == 6;
    } else {
      TwelveBackOffs(m - 1);
    }
  }

  /** Sustained total loss drives the burst to 1, from any state and for any window sizes. */
  lemma TotalLossDrivesBurstToOne(p: Pace, windows: seq<(nat, nat)>)
    requires InRange(p) && TotalLoss(windows) && |windows| >= Patience(p.ewma) + 12
    ensures Paced(p, windows).burst == 1
  {
    BurstStaysInRange(p, windows);
    BurstBacksOff(p, windows);
    TwelveBackOffs(|windows| - Patience(p.ewma));
  }

  class Pacing {
    var currentBurst: nat
    var lastAdjustUs: nat
    var lastSent: nat
    var lastRecv: nat
    var ewmaLoss: real

    ghost function View(): Pace
      reads this
    {
      Pace(currentBurst, ewmaLoss)
    }

    constructor ()
      ensures View() == Pace(FIRST_BURST, 0.0) && InRange(View())
      ensures lastAdjustUs == 0 && lastSent == 0 && lastRecv == 0
    {
      currentBurst, ewmaLoss := FIRST_BURST, 0.0;
      lastAdjustUs, lastSent, lastRecv := 0, 0, 0;
    }

    /** At most once every 250 ms, fold the window since the last adjustment into the pace. */
    method Adjust(now: nat, sent: seq<nat>, recv: seq<nat>)
      requires |sent| == |recv| == MAX_HOPS && InRange(View())
      requires lastSent <= Total(sent, MAX_HOPS) && lastRecv <= Total(recv, MAX_HOPS) && lastAdjustUs <= now
      modifies this
      ensures InRange(View())
      ensures now - old(lastAdjustUs) < ADJUST_PERIOD_US ==> View() == old(View()) && lastAdjustUs == old(lastAdjustUs)
                                                             && lastSent == old(lastSent) && lastRecv == old(lastRecv)
      ensures now - old(lastAdjustUs) >= ADJUST_PERIOD_US ==>
                && lastAdjustUs == now && lastSent == Total(sent, MAX_HOPS) && lastRecv == Total(recv, MAX_HOPS)
                && View() == if lastSent == old(lastSent) then old(View())
                             else Adapt(old(View()), lastSent - old(lastSent), lastRecv - old(lastRecv))
    {
      if now - lastAdjustUs < ADJUST_PERIOD_US {
        return;
      }
      var totalSent, totalRecv := 0, 0;
      for i := 1 to MAX_HOPS
        invariant totalSent == Total(sent, i) && totalRecv == Total(recv, i)
      {
        totalSent := totalSent + sent[i];
        totalRecv := totalRecv + recv[i];
      }
      var deltaSent, deltaRecv := totalSent - lastSent, totalRecv - lastRecv;
      lastSent, lastRecv, lastAdjustUs := totalSent, totalRecv, now;
      if deltaSent == 0 {
        return;
      }
      var loss := 1.0 - deltaRecv as real / deltaSent as real;
      ewmaLoss := ewmaLoss * 0.7 + loss * 0.3;
      if ewmaLoss > 0.35 {
        currentBurst := currentBurst * 3 / 4;
        if currentBurst < MIN_BURST {
          currentBurst := MIN_BURST;
        }
      } else if ewmaLoss < 0.10 {
        if currentBurst < MAX_BURST {
          currentBurst := currentBurst + 1;
        }
      }
    }
  }

  /** The sum over hops 1 to n - 1. */
  function Total(counts: seq<nat>, n: nat): nat
    requires n <= |counts|
  {
    if n <= 1 then 0 else Total(counts, n - 1) + counts[n - 1]
  }

  /** The totals are over hops 1 and up: one more probe for any of them counts, hop 0 does not. */
  lemma {:induction false} TotalCounts(counts: seq<nat>, i: nat, n: nat)
    requires n <= |counts| && i < |counts|
    ensures Total(counts[i := counts[i] + 1], n) == Total(counts, n) + if 1 <= i < n then 1 else 0
  {
    if n > 1 {
      TotalCounts(counts, i, n - 1);
    }
  }

  /** The integrity word holds the TTL above the 16 bits of the sequence number. */
  lemma IntegrityParts(k: nat, stampUs: nat)
    ensures var i := IntentOf(k, stampUs);
            i.integrity / 65536 == i.ttl && i.integrity % 65536 == i.seqNo && i.stampUs == stampUs
  {
  }

  // ----- little loss

  predicate NoLoss(windows: seq<(nat, nat)>) {
    forall w :: w in windows ==> 0 < w.0 <= w.1
  }

  lemma Divides(a: real, b: real, c: real)
    requires c > 0.0 && a * c <= b * c
    ensures a <= b
  {
    assert a > b ==> (a - b) * c > 0.0;
  }

  lemma LossBounds(sent: nat, recv: nat, low: real, high: real)
    requires sent > 0 && sent as real * low <= recv as real <= sent as real * high
    ensures low <= recv as real / sent as real <= high
  {
    var x := recv as real / sent as real;
    assert x * sent as real == recv as real;
    Divides(low, x, sent as real);
    Divides(x, high, sent as real);
  }

  lemma AllBack(sent: nat, recv: nat)
    requires 0 < sent <= recv
    ensures 1.0 <= recv as real / sent as real
  {
    var x := recv as real / sent as real;
    assert x * sent as real == recv as real;
    Divides(1.0, x, sent as real);
  }

  /** While everything comes back and the average is below 10 %, every window adds one, up to 64. */
  lemma {:induction false} NoLossRaisesBurst(p: Pace, windows: seq<(nat, nat)>)
    requires InRange(p) && p.ewma < 0.10 && NoLoss(windows)
    ensures var q := Paced(p, windows);
            q.ewma < 0.10 && q.burst == if p.burst + |windows| < 64 then p.burst + |windows| else 64
  {
    if windows != [] {
      var n := |windows| - 1;
      var w := windows[n];
      assert w in windows;
      NoLossRaisesBurst(p, windows[..n]);
      AllBack(w.0, w.1);
    }
  }

  predicate MildLoss(windows: seq<(nat, nat)>) {
    forall w :: w in windows ==> w.0 > 0 && w.0 as real * 0.65 <= w.1 as real <= w.0 as real * 0.90
  }

  /** Between 10 % and 35 % of loss the burst stays as it is. */
  lemma {:induction false} MildLossKeepsBurst(p: Pace, windows: seq<(nat, nat)>)
    requires 0.10 <= p.ewma <= 0.35 && MildLoss(windows)
    ensures var q := Paced(p, windows); q.burst == p.burst && 0.10 <= q.ewma <= 0.35
  {
    if windows != [] {
      var n := |windows| - 1;
      var w := windows[n];
      assert w in windows;
      MildLossKeepsBurst(p, windows[..n]);
      LossBounds(w.0, w.1, 0.65, 0.90);
    }
  }
}
