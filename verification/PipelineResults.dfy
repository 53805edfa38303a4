/**
 The main results about the probe pipeline: conservation of probes, per TTL and per probe,
 over every run, and the timing argument that keeps a sequence number from being reused
 while its previous probe is still in flight.
 */
module PipelineResults {
  import opened Schedule
  import opened Inflight
  import opened Pipeline

  // ----- conservation

  lemma {:induction false} TallyAdd(a: multiset<nat>, b: multiset<nat>, k: nat, ttl: nat)
    ensures Tally(a + b, k, ttl) == Tally(a, k, ttl) + Tally(b, k, ttl)
  {
    if k > 0 {
      TallyAdd(a, b, k - 1, ttl);
    }
  }

  lemma {:induction false} TallyOfAll(bag: multiset<nat>, k: nat, ttl: nat)
    requires forall i :: 0 <= i < k ==> bag[i] == 1
    ensures Tally(bag, k, ttl) == SentSoFar(k, ttl)
  {
    if k > 0 {
      TallyOfAll(bag, k - 1, ttl);
    }
  }

  lemma {:induction false} UptoOnce(k: nat, x: nat)
    ensures multiset(Upto(k))[x] == if x < k then 1 else 0
  {
    if k > 0 {
      UptoSnoc(k - 1);
      UptoOnce(k - 1, x);
    }
  }

  /** In every state of every run, every probe staged so far is in exactly one place: waiting
      to be tracked, in flight, on its way back, counted, or lost for a recorded reason. */
  lemma EveryProbeInOnePlace(run: seq<State>, i: nat, probe: nat)
    requires IsRun(run) && i < |run|
    ensures Wf(run[i])
    ensures multiset(IntentProbes(Pending(run[i])))[probe] + Active(run[i].gate.slots)[probe]
            + multiset(ObsProbes(Observed(run[i])))[probe] + multiset(run[i].books.received)[probe]
            + Lost(run[i].books)[probe]
            == if probe < Probes(run[i]) then 1 else 0
  {
    RunInv(run, i);
    UptoOnce(Probes(run[i]), probe);
  }

  /** No probe yields more than one observation, whatever the network replies. */
  lemma AtMostOneObservation(run: seq<State>, i: nat, probe: nat)
    requires IsRun(run) && i < |run|
    ensures multiset(ObsProbes(Observed(run[i])))[probe] + multiset(run[i].books.received)[probe] <= 1
  {
    hide Pending, Observed, Active, Lost;
    EveryProbeInOnePlace(run, i, probe);
  }

  /** The counters of the display: for each TTL, sent = waiting + in flight + on the way back
      + recv + lost; so recv never exceeds sent. */
  lemma PerTtlConservation(run: seq<State>, i: nat, ttl: nat)
    requires IsRun(run) && i < |run| && ttl < MAX_HOPS
    ensures Wf(run[i])
    ensures var s, k := run[i], Probes(run[i]);
            s.logic.sent[ttl] ==
              Tally(multiset(IntentProbes(Pending(s))), k, ttl) + Tally(Active(s.gate.slots), k, ttl)
              + Tally(multiset(ObsProbes(Observed(s))), k, ttl) + s.logic.recv[ttl] + Tally(Lost(s.books), k, ttl)
    ensures run[i].logic.recv[ttl] <= run[i].logic.sent[ttl]
  {
    RunInv(run, i);
    TtlBalance(run[i], ttl);
  }

  lemma TtlBalance(s: State, ttl: nat)
    requires Inv(s) && Wf(s) && ttl < MAX_HOPS
    ensures s.logic.sent[ttl] ==
              Tally(multiset(IntentProbes(Pending(s))), Probes(s), ttl) + Tally(Active(s.gate.slots), Probes(s), ttl)
              + Tally(multiset(ObsProbes(Observed(s))), Probes(s), ttl) + s.logic.recv[ttl]
              + Tally(Lost(s.books), Probes(s), ttl)
  {
    hide Pending, Observed, Active, Lost, InOrder, TableOk, ObsOk, Tally, SentSoFar;
    var k := Probes(s);
    var p, a, o, r, l := multiset(IntentProbes(Pending(s))), Active(s.gate.slots), multiset(ObsProbes(Observed(s))),
                         multiset(s.books.received), Lost(s.books);
    var all := multiset(Upto(k));
    forall x | 0 <= x < k
      ensures all[x] == 1
    {
      UptoOnce(k, x);
    }
    TallyOfAll(all, k, ttl);
    TallyAdd(p, a, k, ttl);
    TallyAdd(p + a, o, k, ttl);
    TallyAdd(p + a + o, r, k, ttl);
    TallyAdd(p + a + o + r, l, k, ttl);
  }

  /** After any run, the next probe carries sequence k mod 65536 and TTL 1 + k mod 30, and the
      sent counters of TTLs 1 to 30 differ by at most one. */
  lemma ScheduleAtEveryState(run: seq<State>, i: nat, a: nat, b: nat)
    requires IsRun(run) && i < |run| && 1 <= a <= TTL_CYCLE && 1 <= b <= TTL_CYCLE
    ensures var s := run[i];
            && s.logic.seqNo == Probes(s) % SEQ_SPACE && s.logic.ttl == 1 + Probes(s) % TTL_CYCLE
            && |s.logic.sent| == MAX_HOPS
            && s.logic.sent[a] <= s.logic.sent[b] + 1 && s.logic.sent[b] <= s.logic.sent[a] + 1
            && s.logic.sent[0] == 0
            && forall t :: TTL_CYCLE < t < MAX_HOPS ==> s.logic.sent[t] == 0
  {
    RunInv(run, i);
    SentIsBalanced(Probes(run[i]), a, b);
  }

  // ----- sequence reuse

  const BURST_GAP_US: nat := 10_000

  /** 64 probes apart means at least one interval apart. */
  ghost predicate Spaced(stamps: seq<nat>) {
    forall i, j :: 0 <= i <= j < |stamps| ==> stamps[j] >= stamps[i] + BURST_GAP_US * ((j - i) / MAX_BURST)
  }

  ghost predicate LogicTime(l: Logic, stamps: seq<nat>, clock: nat) {
    && l.lastProbe <= l.now <= clock
    && l.burstStart <= |stamps|
    && if l.phase.LStaging? then
         && l.lastProbe + BURST_GAP_US <= l.now
         && |stamps| - l.burstStart + l.phase.left <= MAX_BURST
         && (forall i :: l.burstStart <= i < |stamps| ==> stamps[i] == l.now)
         && (l.burstStart > 0 ==> stamps[l.burstStart - 1] <= l.lastProbe)
       else
         |stamps| > 0 ==> stamps[|stamps| - 1] <= l.lastProbe
  }

  ghost predicate GateTime(g: Gate, stamps: seq<nat>, clock: nat) {
    && g.now <= clock && g.lastReap <= clock
    && g.next <= |g.popped|
    && (g.phase.GTracking? ==>
          && g.lastReap <= g.now < g.lastReap + REAP_PERIOD_US
          && forall i :: g.next <= i < |g.popped| ==> g.popped[i].stampUs <= g.now)
    && forall i :: 0 <= i < |g.slots| ==> FreshEntry(g.slots[i], stamps, g.lastReap, clock)
  }

  ghost predicate FreshEntry(e: Entry, stamps: seq<nat>, lastReap: nat, clock: nat) {
    e.active ==>
      && e.probe < |stamps| && e.sentUs <= stamps[e.probe] + MAX_DELAY_US
      && e.sentUs <= clock && lastReap <= e.sentUs + STALE_US
  }

  ghost predicate TimeInv(s: State) {
    && Spaced(s.books.stamps)
    && (forall i :: 0 <= i < |s.books.stamps| ==> s.books.stamps[i] <= s.clock)
    && LogicTime(s.logic, s.books.stamps, s.clock)
    && GateTime(s.gate, s.books.stamps, s.clock)
  }

  /** The assumption on the run: an intent about to be tracked is not older than the delay bound. */
  ghost predicate InTime(s: State) {
    s.gate.phase.GTracking? && s.gate.next < |s.gate.popped| ==>
      s.gate.now <= s.gate.popped[s.gate.next].stampUs + MAX_DELAY_US
  }

  lemma SpacedSnoc(stamps: seq<nat>, start: nat, last: nat, now: nat)
    requires Spaced(stamps) && start <= |stamps| < start + MAX_BURST
    requires last + BURST_GAP_US <= now
    requires forall i :: start <= i < |stamps| ==> stamps[i] == now
    requires start > 0 ==> stamps[start - 1] <= last
    ensures Spaced(stamps + [now])
  {
    var k := |stamps|;
    forall i | 0 <= i <= k
      ensures now >= (stamps + [now])[i] + BURST_GAP_US * ((k - i) / MAX_BURST)
    {
      if i < start {
        assert stamps[start - 1] >= stamps[i] + BURST_GAP_US * ((start - 1 - i) / MAX_BURST);
        assert (k - i) / MAX_BURST <= (start - 1 - i) / MAX_BURST + 1;
      }
    }
  }

  lemma StageTime(s: State)
    requires Wf(s) && TimeInv(s) && s.logic.phase.LStaging? && s.logic.phase.left > 0
    ensures TimeInv(Stage(s))
  {
    SpacedSnoc(s.books.stamps, s.logic.burstStart, s.logic.lastProbe, s.logic.now);
    hide Spaced;
    var s' := Stage(s);
    assert forall i :: 0 <= i < |s.gate.slots| ==>
        (FreshEntry(s.gate.slots[i], s.books.stamps, s.gate.lastReap, s.clock) ==>
         FreshEntry(s.gate.slots[i], s'.books.stamps, s.gate.lastReap, s.clock));
  }

  lemma LogicStepTime(s: State, step: Step)
    requires Wf(s) && Enabled(s, step) && TimeInv(s)
    requires step.Advance? || step.LogicBurst? || step.LogicPush? || step.LogicBurstDone? || step.LogicSkip?
             || step.LogicPop? || step.LogicUpdate? || step.LogicLoop?
    ensures TimeInv(Apply(s, step))
  {
    hide Spaced;
  }

  lemma GateStepTime(s: State, step: Step)
    requires Wf(s) && Enabled(s, step) && TimeInv(s)
    requires step.GatePop? || step.GateSend? || step.GateDrop? || step.GateReply? || step.GatePublish?
             || step.GateLoop? || step.GateRespawn?
    ensures TimeInv(Apply(s, step))
  {
    hide Spaced, LogicTime, ReapedProbes;
  }

  lemma ClockTime(s: State)
    requires Inv(s) && Wf(s) && TimeInv(s) && s.gate.phase.GPopped?
    ensures TimeInv(Clock(s))
  {
    forall i | s.gate.next <= i < |s.gate.popped|
      ensures s.gate.popped[i].stampUs <= s.clock
    {
      var j := i - s.gate.next;
      assert Pending(s)[j] == s.gate.popped[i];
      var k := Probes(s) - |Pending(s)| + j;
      assert Pending(s)[j] == IntentOf(k, s.books.stamps[k]);
    }
    hide Spaced, LogicTime, ReapedProbes, InOrder, TableOk, Balanced, Counted, Scheduled;
  }

  /** The heart of the timing argument: the entry that track_probe is about to write is free. */
  lemma SlotIsFree(s: State)
    requires Inv(s) && Wf(s) && TimeInv(s) && s.gate.phase.GTracking? && s.gate.next < |s.gate.popped|
    ensures !s.gate.slots[HomeSlot(s.gate.popped[s.gate.next].seqNo)].active
  {
    ReuseIsLate(s);
    var q := s.gate.popped[s.gate.next];
    var e := s.gate.slots[HomeSlot(q.seqNo)];
    hide Inv, Spaced, LogicTime;
    assert FreshEntry(e, s.books.stamps, s.gate.lastReap, s.clock);
  }

  /** If the slot is taken, then by a probe whose burst was 10.24 s earlier. */
  lemma ReuseIsLate(s: State)
    requires Inv(s) && Wf(s) && Spaced(s.books.stamps) && s.gate.next < |s.gate.popped|
    ensures var q := s.gate.popped[s.gate.next]; var e := s.gate.slots[HomeSlot(q.seqNo)];
            e.active ==> e.probe < Probes(s) && q.stampUs >= s.books.stamps[e.probe] + 1024 * BURST_GAP_US
  {
    hide Balanced, Counted, Scheduled, ObsOk;
    var q := s.gate.popped[s.gate.next];
    var e, k := s.gate.slots[HomeSlot(q.seqNo)], Probes(s) - |Pending(s)|;
    assert Pending(s)[0] == q && q == IntentOf(k, s.books.stamps[k]);
    assert EntryOk(e, HomeSlot(q.seqNo), k);
    if e.active {
      SeqReuseDistance(e.probe, k);
      assert s.books.stamps[k] >= s.books.stamps[e.probe] + BURST_GAP_US * ((k - e.probe) / MAX_BURST);
      assert (k - e.probe) / MAX_BURST >= 1024;
    }
  }

  lemma TrackTime(s: State)
    requires Inv(s) && Wf(s) && TimeInv(s) && InTime(s)
    requires s.gate.phase.GTracking? && s.gate.next < |s.gate.popped|
    ensures TimeInv(TrackNext(s))
    ensures TrackNext(s).books.overwritten == s.books.overwritten
  {
    SlotIsFree(s);
    var q, k := s.gate.popped[s.gate.next], Probes(s) - |Pending(s)|;
    assert Pending(s)[0] == q && q == IntentOf(k, s.books.stamps[k]);
    hide Spaced, LogicTime, InOrder, TableOk, Balanced, Counted, Scheduled;
  }

  lemma StepTime(s: State, step: Step)
    requires Inv(s) && Wf(s) && Enabled(s, step) && TimeInv(s) && InTime(s)
    ensures TimeInv(Apply(s, step))
    ensures Apply(s, step).books.overwritten == s.books.overwritten
  {
    hide Inv, TimeInv;
    match step
    case LogicStage => StageTime(s);
    case GateClock => ClockTime(s);
    case GateTrack => TrackTime(s);
    case GatePop(_) => GateStepTime(s, step);
    case GateSend(_) => GateStepTime(s, step);
    case GateDrop => GateStepTime(s, step);
    case GateReply(_, _) => GateStepTime(s, step);
    case GatePublish => GateStepTime(s, step);
    case GateLoop => GateStepTime(s, step);
    case GateRespawn => GateStepTime(s, step);
    case _ => LogicStepTime(s, step);
  }

  lemma InitialTime(s: State)
    requires Initial(s)
    ensures TimeInv(s)
  {
    assert s.books.stamps == [];
    assert forall i :: 0 <= i < |s.gate.slots| ==> !s.gate.slots[i].active;
  }

  lemma {:induction false} TimedRun(run: seq<State>, i: nat)
    requires IsRun(run) && i < |run| && forall j :: 0 <= j < |run| ==> InTime(run[j])
    ensures TimeInv(run[i]) && run[i].books.overwritten == multiset{}
  {
    if i == 0 {
      InitialTime(run[0]);
    } else {
      hide Inv, TimeInv;
      TimedRun(run, i - 1);
      RunInv(run, i - 1);
      assert Next(run[i - 1], run[i]);
      var step :| IsStep(run[i - 1], step, run[i]);
      StepTime(run[i - 1], step);
    }
  }

  /** With bursts at least 10 ms apart and every intent tracked within 4.24 s of its burst, no
      run ever overwrites an entry still in flight: reusing a sequence number takes at least
      1024 bursts, and the sweep before tracking has cleared what is older. */
  lemma NeverOverwritten(run: seq<State>, i: nat)
    requires IsRun(run) && i < |run| && forall j :: 0 <= j < |run| ==> InTime(run[j])
    ensures run[i].books.overwritten == multiset{}
    ensures run[i].gate.phase.GTracking? && run[i].gate.next < |run[i].gate.popped|
            && |run[i].gate.slots| == MAX_INFLIGHT
            ==> !run[i].gate.slots[HomeSlot(run[i].gate.popped[run[i].gate.next].seqNo)].active
  {
    RunInv(run, i);
    TimedRun(run, i);
    hide Inv, TimeInv;
    if run[i].gate.phase.GTracking? && run[i].gate.next < |run[i].gate.popped| {
      SlotIsFree(run[i]);
    }
  }

  // ----- replies and drops

  lemma {:induction false} ActiveSlot(slots: seq<Entry>, probe: nat) returns (i: nat)
    requires probe in Active(slots)
    ensures i < |slots| && slots[i].active && slots[i].probe == probe
  {
    var n := |slots| - 1;
    if slots[n].active && slots[n].probe == probe {
      i := n;
    } else {
      i := ActiveSlot(slots[..n], probe);
    }
  }

  lemma ProbeSlot(s: State, probe: nat)
    requires Inv(s) && Wf(s) && probe in Active(s.gate.slots)
    ensures var e := s.gate.slots[probe % 65536];
            && e.active && e.probe == probe && e.seqNo == probe % 65536 && e.ttl == 1 + probe % 30
            && HomeSlot(probe % 65536) == probe % 65536
  {
    var i := ActiveSlot(s.gate.slots, probe);
    assert EntryOk(s.gate.slots[i], i, Probes(s) - |Pending(s)|);
  }

  /** In every state of every run, a packet that quotes the sequence number of a probe in flight turns
      it into an observation of that kind, with the probe's TTL and sequence number, and the probe is
      no longer in flight. */
  lemma ReplyIsObserved(run: seq<State>, i: nat, probe: nat, kind: ReplyKind)
    requires IsRun(run) && i < |run| && probe in Active(run[i].gate.slots)
    requires Enabled(run[i], GateReply(probe % 65536, kind))
    ensures Wf(run[i])
    ensures var s, s' := run[i], Apply(run[i], GateReply(probe % 65536, kind));
            && |s'.gate.batch| == |s.gate.batch| + 1 && s'.gate.batch[..|s.gate.batch|] == s.gate.batch
            && var o := s'.gate.batch[|s.gate.batch|];
               && o.probe == probe && o.kind == kind && o.ttl == 1 + probe % 30 && o.seqNo == probe % 65536
               && probe !in Active(s'.gate.slots)
  {
    RunInv(run, i);
    ProbeSlot(run[i], probe);
    ReleasedIsGone(run[i], probe);
  }

  lemma ReleasedIsGone(s: State, probe: nat)
    requires Inv(s) && Wf(s) && probe in Active(s.gate.slots)
    ensures probe !in Active(Released(s.gate.slots, probe % 65536))
  {
    ProbeSlot(s, probe);
    ReleaseActive(s.gate.slots, probe % 65536);
    OnlyOnce(s, probe);
  }

  lemma OnlyOnce(s: State, probe: nat)
    requires Inv(s) && Wf(s)
    ensures Active(s.gate.slots)[probe] <= 1
  {
    UptoOnce(Probes(s), probe);
    assert multiset(Upto(Probes(s)))[probe] >= Active(s.gate.slots)[probe];
  }

  /** A probe in flight that could not be sent is forgotten when its turn comes. */
  lemma DropIsForgotten(run: seq<State>, i: nat, probe: nat)
    requires IsRun(run) && i < |run| && probe in Active(run[i].gate.slots)
    requires run[i].gate.phase.GDropping? && run[i].gate.phase.from < |run[i].gate.popped|
    requires run[i].gate.popped[run[i].gate.phase.from].seqNo == probe % 65536
    ensures Wf(run[i]) && probe !in Active(Apply(run[i], GateDrop).gate.slots)
  {
    RunInv(run, i);
    ReleasedIsGone(run[i], probe);
  }
}
