/**
 The probe pipeline as a step system: the logic engine stages probes and pushes them through
 the l2g ring; the gatekeeper pops them, tracks them, sends them and turns matching replies
 into observations on the g2l ring; the logic engine counts those.  The two processes
 interleave at every ring operation, clock reading, table write and counter update.  The
 network is arbitrary (replies may be lost, late, duplicated or forged, sends may fail), and
 the gatekeeper may crash and be respawned with an empty table.  The rings are the FIFO
 queues that RingSteps proves them to be.
 */
module Pipeline {
  import opened Schedule
  import opened Inflight

  const RING_CAPACITY: nat := 131070
  const POP_BATCH: nat := 1024
  const MIN_INTERVAL_MS: nat := 10
  /** How long after its burst an intent may still be tracked. */
  const MAX_DELAY_US: nat := 4_240_000

  datatype ReplyKind = Reply | Exceeded | Unreach

  datatype Obs = Obs(ttl: nat, seqNo: nat, rttUs: int, kind: ReplyKind, probe: nat)

  datatype LogicPhase = LTop | LStaging(left: nat) | LDraining

  /** The logic process: its registers, the burst it is staging, its counters and the
      observations it has popped but not yet counted. */
  datatype Logic = Logic(
    phase: LogicPhase, now: nat, lastProbe: nat, burstStart: nat,
    ttl: nat, seqNo: nat, staged: seq<Intent>,
    sent: seq<nat>, recv: seq<nat>, inbox: seq<Obs>)

  datatype GatePhase = GTop | GPopped | GTracking | GDropping(from: nat)

  /** The gatekeeper process: popped intents (those before `next` are tracked), the in-flight
      table and the observations collected but not yet pushed. */
  datatype Gate = Gate(
    phase: GatePhase, now: nat, lastReap: nat, slots: seq<Entry>,
    popped: seq<Intent>, next: nat, batch: seq<Obs>)

  /** Where every probe has gone, for the proofs only: `stamps[k]` is the burst time of probe
      k, `received` lists the probes whose observation was counted, the rest are losses. */
  datatype Books = Books(
    stamps: seq<nat>, received: seq<nat>,
    dropped: multiset<nat>, reaped: multiset<nat>, overwritten: multiset<nat>, crashed: multiset<nat>)

  datatype State = State(
    clock: nat, logic: Logic, l2g: seq<Intent>, gate: Gate, g2l: seq<Obs>, books: Books)

  datatype Step =
    | Advance(us: nat)                    // time passes
    | LogicBurst(n: nat, intervalMs: nat) // logic: the interval is over, start a burst
    | LogicStage                          // logic: one probe
    | LogicPush                           // logic: one intent into l2g
    | LogicBurstDone                      // logic: remember the burst time
    | LogicSkip                           // logic: paused or too early
    | LogicPop(n: nat)                    // logic: take observations from g2l
    | LogicUpdate                         // logic: count one observation
    | LogicLoop                           // logic: back to the top, read the clock
    | GatePop(n: nat)                     // gatekeeper: take intents from l2g
    | GateClock                           // gatekeeper: read the clock, reap if due
    | GateTrack                           // gatekeeper: track one intent
    | GateSend(sent: nat)                 // gatekeeper: the first `sent` went out
    | GateDrop                            // gatekeeper: forget one that did not
    | GateReply(seqNo: nat, kind: ReplyKind) // gatekeeper: a packet that quotes seqNo
    | GatePublish                         // gatekeeper: the batch into g2l
    | GateLoop                            // gatekeeper: back to the top
    | GateRespawn                         // the gatekeeper crashed; a new one starts

  // ----- bags of probes

  function IntentProbes(s: seq<Intent>): seq<nat> {
    seq(|s|, i requires 0 <= i < |s| => s[i].probe)
  }

  function ObsProbes(s: seq<Obs>): seq<nat> {
    seq(|s|, i requires 0 <= i < |s| => s[i].probe)
  }

  function Upto(k: nat): seq<nat> {
    seq(k, i => i)
  }

  /** Intents staged or queued but not yet tracked, oldest first. */
  function Pending(s: State): seq<Intent>
    requires s.gate.next <= |s.gate.popped|
  {
    s.gate.popped[s.gate.next..] + s.l2g + s.logic.staged
  }

  /** Observations on their way, oldest first. */
  function Observed(s: State): seq<Obs> {
    s.logic.inbox + s.g2l + s.gate.batch
  }

  function Probes(s: State): nat {
    |s.books.stamps|
  }

  // ----- the steps

  /** Every probe of the iteration was sent or forgotten; replies may be read. */
  predicate SendDone(g: Gate) {
    g.phase.GDropping? && g.phase.from == |g.popped|
  }

  predicate Enabled(s: State, step: Step) {
    match step
    case Advance(_) => true
    case LogicBurst(n, intervalMs) =>
      && s.logic.phase.LTop? && n <= MAX_BURST && intervalMs >= MIN_INTERVAL_MS
      && Elapsed(s.logic.now, s.logic.lastProbe) >= intervalMs * 1000
    case LogicStage => s.logic.phase.LStaging? && s.logic.phase.left > 0
    case LogicPush =>
      && s.logic.phase.LStaging? && s.logic.phase.left == 0 && s.logic.staged != []
      && |s.l2g| + 1 <= RING_CAPACITY
    case LogicBurstDone => s.logic.phase.LStaging? && s.logic.phase.left == 0 && s.logic.staged == []
    case LogicSkip => s.logic.phase.LTop?
    case LogicPop(n) => s.logic.phase.LDraining? && s.logic.inbox == [] && n <= |s.g2l| && n <= POP_BATCH
    case LogicUpdate => s.logic.phase.LDraining? && s.logic.inbox != []
    case LogicLoop => s.logic.phase.LDraining? && s.logic.inbox == []
    case GatePop(n) => s.gate.phase.GTop? && n <= |s.l2g| && n <= POP_BATCH
    case GateClock => s.gate.phase.GPopped?
    case GateTrack => s.gate.phase.GTracking? && s.gate.next < |s.gate.popped|
    case GateSend(sent) => s.gate.phase.GTracking? && s.gate.next == |s.gate.popped| && sent <= |s.gate.popped|
    case GateDrop => s.gate.phase.GDropping? && s.gate.phase.from < |s.gate.popped|
    case GateReply(_, _) => SendDone(s.gate) && |s.gate.batch| < POP_BATCH
    case GatePublish => SendDone(s.gate) && |s.g2l| + |s.gate.batch| <= RING_CAPACITY
    case GateLoop => SendDone(s.gate) && s.gate.batch == []
    case GateRespawn => true
  }

  predicate Wf(s: State) {
    && |s.logic.sent| == |s.logic.recv| == MAX_HOPS
    && 1 <= s.logic.ttl <= TTL_CYCLE
    && |s.gate.slots| == MAX_INFLIGHT
    && s.gate.next <= |s.gate.popped|
  }

  function Stage(s: State): State
    requires Wf(s) && s.logic.phase.LStaging? && s.logic.phase.left > 0
  {
    var l := s.logic;
    var intent := Intent(l.ttl, l.seqNo, l.now, Integrity(l.ttl, l.seqNo), Probes(s));
    s.(logic := l.(phase := LStaging(l.phase.left - 1),
                   staged := l.staged + [intent],
                   sent := l.sent[l.ttl := l.sent[l.ttl] + 1],
                   seqNo := (l.seqNo + 1) % SEQ_SPACE,
                   ttl := if l.ttl + 1 > 30 then 1 else l.ttl + 1),
       books := s.books.(stamps := s.books.stamps + [l.now]))
  }

  /** update_state: hops outside 1..63 are ignored; every kind of reply counts. */
  function Update(s: State): State
    requires Wf(s) && s.logic.inbox != []
  {
    var l, o := s.logic, s.logic.inbox[0];
    if o.ttl >= MAX_HOPS || o.ttl == 0 then s.(logic := l.(inbox := l.inbox[1..]))
    else s.(logic := l.(inbox := l.inbox[1..], recv := l.recv[o.ttl := l.recv[o.ttl] + 1]),
            books := s.books.(received := s.books.received + [o.probe]))
  }

  function Clock(s: State): State {
    var g := s.gate;
    if Elapsed(s.clock, g.lastReap) < REAP_PERIOD_US then
      s.(gate := g.(phase := GTracking, now := s.clock))
    else
      s.(gate := g.(phase := GTracking, now := s.clock, lastReap := s.clock, slots := Reaped(g.slots, s.clock)),
         books := s.books.(reaped := s.books.reaped + ReapedProbes(g.slots, s.clock)))
  }

  function TrackNext(s: State): State
    requires Wf(s) && s.gate.next < |s.gate.popped|
  {
    var g, i := s.gate, s.gate.popped[s.gate.next];
    s.(gate := g.(slots := Tracked(g.slots, i.ttl, i.seqNo, g.now, i.probe), next := g.next + 1),
       books := s.books.(overwritten := s.books.overwritten + Held(g.slots[HomeSlot(i.seqNo)])))
  }

  function DropNext(s: State): State
    requires Wf(s) && s.gate.phase.GDropping? && s.gate.phase.from < |s.gate.popped|
  {
    var g, q := s.gate, s.gate.popped[s.gate.phase.from].seqNo;
    s.(gate := g.(phase := GDropping(g.phase.from + 1), slots := Released(g.slots, q)),
       books := s.books.(dropped := s.books.dropped +
                                    if Holds(g.slots, q) then Held(g.slots[HomeSlot(q)]) else multiset{}))
  }

  function Receive(s: State, seqNo: nat, kind: ReplyKind): State
    requires Wf(s)
  {
    var g := s.gate;
    if !Holds(g.slots, seqNo) then s
    else
      var e := g.slots[HomeSlot(seqNo)];
      s.(gate := g.(slots := Released(g.slots, seqNo),
                    batch := g.batch + [Obs(e.ttl, seqNo, s.clock - e.sentUs, kind, e.probe)]))
  }

  function FreshGate(): Gate {
    Gate(GTop, 0, 0, seq(MAX_INFLIGHT, _ => Entry(0, 0, 0, false, 0)), [], 0, [])
  }

  function Respawn(s: State): State
    requires Wf(s)
  {
    s.(gate := FreshGate(),
       books := s.books.(crashed := s.books.crashed + multiset(IntentProbes(s.gate.popped[s.gate.next..]))
                                    + Active(s.gate.slots) + multiset(ObsProbes(s.gate.batch))))
  }

  function Apply(s: State, step: Step): State
    requires Wf(s) && Enabled(s, step)
  {
    var l, g := s.logic, s.gate;
    match step
    case Advance(us) => s.(clock := s.clock + us)
    case LogicBurst(n, _) => s.(logic := l.(phase := LStaging(n), burstStart := Probes(s)))
    case LogicStage => Stage(s)
    case LogicPush => s.(logic := l.(staged := l.staged[1..]), l2g := s.l2g + [l.staged[0]])
    case LogicBurstDone => s.(logic := l.(phase := LDraining, lastProbe := l.now))
    case LogicSkip => s.(logic := l.(phase := LDraining))
    case LogicPop(n) => s.(logic := l.(inbox := s.g2l[..n]), g2l := s.g2l[n..])
    case LogicUpdate => Update(s)
    case LogicLoop => s.(logic := l.(phase := LTop, now := s.clock))
    case GatePop(n) => s.(gate := g.(phase := GPopped, popped := s.l2g[..n], next := 0), l2g := s.l2g[n..])
    case GateClock => Clock(s)
    case GateTrack => TrackNext(s)
    case GateSend(sent) => s.(gate := g.(phase := GDropping(sent)))
    case GateDrop => DropNext(s)
    case GateReply(seqNo, kind) => Receive(s, seqNo, kind)
    case GatePublish => s.(gate := g.(batch := []), g2l := s.g2l + g.batch)
    case GateLoop => s.(gate := g.(phase := GTop))
    case GateRespawn => Respawn(s)
  }

  predicate Initial(s: State) {
    && s.logic == Logic(LTop, s.clock, 0, 0, 1, 0, [], seq(MAX_HOPS, _ => 0), seq(MAX_HOPS, _ => 0), [])
    && s.gate == FreshGate()
    && s.l2g == [] && s.g2l == []
    && s.books == Books([], [], multiset{}, multiset{}, multiset{}, multiset{})
  }

  ghost predicate IsStep(s: State, step: Step, s': State) {
    Wf(s) && Enabled(s, step) && s' == Apply(s, step)
  }

  ghost predicate Next(s: State, s': State) {
    exists step :: IsStep(s, step, s')
  }

  ghost predicate IsRun(run: seq<State>) {
    && |run| > 0 && Initial(run[0])
    && forall i :: 0 < i < |run| ==> Next(run[i - 1], run[i])
  }

  // ----- what every step keeps

  /** The scheduler's registers and counters are those of a lifetime of k probes. */
  ghost predicate Scheduled(l: Logic, k: nat) {
    && |l.sent| == MAX_HOPS
    && l.ttl == TtlOf(k) && l.seqNo == SeqOf(k)
    && forall t :: 0 <= t < MAX_HOPS ==> l.sent[t] == SentSoFar(k, t)
  }

  /** The pending intents are exactly the latest probes, each as it was scheduled. */
  ghost predicate InOrder(pending: seq<Intent>, stamps: seq<nat>) {
    && |pending| <= |stamps|
    && forall i :: 0 <= i < |pending| ==>
         var k := |stamps| - |pending| + i; pending[i] == IntentOf(k, stamps[k])
  }

  ghost predicate EntryOk(e: Entry, i: nat, tracked: int) {
    e.active ==> e.probe < tracked && e.seqNo == i && SeqOf(e.probe) == i && e.ttl == TtlOf(e.probe)
  }

  ghost predicate TableOk(slots: seq<Entry>, tracked: int) {
    |slots| == MAX_INFLIGHT && forall i :: 0 <= i < |slots| ==> EntryOk(slots[i], i, tracked)
  }

  ghost predicate ObsOk(obs: seq<Obs>, k: nat) {
    forall i :: 0 <= i < |obs| ==> obs[i].probe < k && obs[i].ttl == TtlOf(obs[i].probe)
  }

  ghost predicate PhaseOk(g: Gate) {
    && g.next <= |g.popped|
    && (g.phase.GTop? || g.phase.GDropping? ==> g.next == |g.popped|)
    && (g.phase.GPopped? ==> g.next == 0)
    && (g.phase.GDropping? ==> g.phase.from <= |g.popped|)
  }

  /** How many of a bag's probes below k went to a TTL. */
  function Tally(bag: multiset<nat>, k: nat, ttl: nat): nat {
    if k == 0 then 0 else Tally(bag, k - 1, ttl) + if TtlOf(k - 1) == ttl then bag[k - 1] else 0
  }

  ghost predicate Counted(recv: seq<nat>, received: seq<nat>, k: nat) {
    && |recv| == MAX_HOPS
    && (forall i :: 0 <= i < |received| ==> received[i] < k)
    && forall t :: 0 <= t < MAX_HOPS ==> recv[t] == Tally(multiset(received), k, t)
  }

  function Lost(b: Books): multiset<nat> {
    b.dropped + b.reaped + b.overwritten + b.crashed
  }

  /** Every probe staged so far is in exactly one place. */
  ghost predicate Balanced(s: State)
    requires s.gate.next <= |s.gate.popped|
  {
    multiset(Upto(Probes(s))) ==
    multiset(IntentProbes(Pending(s))) + Active(s.gate.slots) + multiset(ObsProbes(Observed(s)))
    + multiset(s.books.received) + Lost(s.books)
  }

  ghost predicate Inv(s: State) {
    && PhaseOk(s.gate)
    && Scheduled(s.logic, Probes(s))
    && InOrder(Pending(s), s.books.stamps)
    && TableOk(s.gate.slots, Probes(s) - |Pending(s)|)
    && ObsOk(Observed(s), Probes(s))
    && Counted(s.logic.recv, s.books.received, Probes(s))
    && Balanced(s)
  }

  lemma InvIsWf(s: State)
    requires Inv(s)
    ensures Wf(s)
  {
  }

  lemma UptoSnoc(k: nat)
    ensures Upto(k + 1) == Upto(k) + [k]
  {
  }

  lemma IntentProbesConcat(a: seq<Intent>, b: seq<Intent>)
    ensures IntentProbes(a + b) == IntentProbes(a) + IntentProbes(b)
    ensures multiset(IntentProbes(a + b)) == multiset(IntentProbes(a)) + multiset(IntentProbes(b))
  {
  }

  lemma ObsProbesConcat(a: seq<Obs>, b: seq<Obs>)
    ensures ObsProbes(a + b) == ObsProbes(a) + ObsProbes(b)
    ensures multiset(ObsProbes(a + b)) == multiset(ObsProbes(a)) + multiset(ObsProbes(b))
  {
  }

  lemma {:induction false} TallyOfMissing(bag: multiset<nat>, x: nat, k: nat, ttl: nat)
    ensures Tally(bag + multiset{x}, k, ttl) == Tally(bag, k, ttl) + if x < k && TtlOf(x) == ttl then 1 else 0
  {
    if k > 0 {
      TallyOfMissing(bag, x, k - 1, ttl);
    }
  }

  lemma InitialInv(s: State)
    requires Initial(s)
    ensures Inv(s)
  {
    NothingActive(s.gate.slots);
  }

  // Steps that only move items between queues, or touch no probe at all.

  lemma QuietStepInv(s: State, step: Step)
    requires Inv(s) && Wf(s) && Enabled(s, step)
    requires !step.LogicStage? && !step.LogicUpdate? && !step.GateClock? && !step.GateTrack?
             && !step.GateDrop? && !step.GateReply? && !step.GateRespawn?
    ensures Inv(Apply(s, step))
  {
    var s' := Apply(s, step);
    SameQueues(s, step);
    hide Balanced, TableOk, InOrder, ObsOk, Counted, Scheduled;
  }

  lemma SameQueues(s: State, step: Step)
    requires PhaseOk(s.gate) && Wf(s) && Enabled(s, step)
    requires !step.LogicStage? && !step.LogicUpdate? && !step.GateClock? && !step.GateTrack?
             && !step.GateDrop? && !step.GateReply? && !step.GateRespawn?
    ensures PhaseOk(Apply(s, step).gate)
    ensures Pending(Apply(s, step)) == Pending(s) && Observed(Apply(s, step)) == Observed(s)
    ensures Apply(s, step).gate.slots == s.gate.slots && Apply(s, step).books == s.books
  {
  }

  // Staging a probe.

  lemma StageInv(s: State)
    requires Inv(s) && Wf(s) && s.logic.phase.LStaging? && s.logic.phase.left > 0
    ensures Inv(Stage(s))
  {
    var s', k := Stage(s), Probes(s);
    var intent := s'.logic.staged[|s.logic.staged|];
    StageOrder(s, s', intent);
    StageCounts(s, s');
    StageBalance(s, s', intent);
    hide InOrder, Balanced, Scheduled, Counted;
  }

  lemma StageOrder(s: State, s': State, intent: Intent)
    requires PhaseOk(s.gate) && Wf(s) && Scheduled(s.logic, Probes(s)) && InOrder(Pending(s), s.books.stamps)
    requires s.logic.phase.LStaging? && s.logic.phase.left > 0 && s' == Stage(s)
    requires intent == s'.logic.staged[|s.logic.staged|]
    ensures Pending(s') == Pending(s) + [intent] && intent == IntentOf(Probes(s), s.logic.now)
    ensures InOrder(Pending(s'), s'.books.stamps)
  {
    hide Integrity, TtlOf, SeqOf, SentSoFar;
    assert s'.logic.staged == s.logic.staged + [intent];
    assert Pending(s') == Pending(s) + [intent];
  }

  lemma StageCounts(s: State, s': State)
    requires Wf(s) && Scheduled(s.logic, Probes(s)) && Counted(s.logic.recv, s.books.received, Probes(s))
    requires s.logic.phase.LStaging? && s.logic.phase.left > 0 && s' == Stage(s)
    ensures Scheduled(s'.logic, Probes(s')) && Counted(s'.logic.recv, s'.books.received, Probes(s'))
  {
    NextInCycle(Probes(s));
    hide TtlOf, SeqOf;
    assert Probes(s) !in s.books.received;
    assert multiset(s.books.received)[Probes(s)] == 0;
  }

  lemma StageBalance(s: State, s': State, intent: Intent)
    requires PhaseOk(s.gate) && PhaseOk(s'.gate) && Balanced(s)
    requires Pending(s') == Pending(s) + [intent] && intent.probe == Probes(s)
    requires Probes(s') == Probes(s) + 1 && Observed(s') == Observed(s) && s'.gate == s.gate
    requires s'.books == s.books.(stamps := s'.books.stamps)
    ensures Balanced(s')
  {
    hide Pending, Observed;
    UptoSnoc(Probes(s));
    IntentProbesConcat(Pending(s), [intent]);
    assert IntentProbes([intent]) == [intent.probe];
  }

  // Counting an observation.

  lemma UpdateInv(s: State)
    requires Inv(s) && Wf(s) && s.logic.inbox != []
    ensures Inv(Update(s))
  {
    var s', o := Update(s), s.logic.inbox[0];
    assert Observed(s)[0] == o;
    NextInCycle(o.probe);
    UpdateCounts(s, s', o);
    UpdateBalance(s, s', o);
    ObsOkTail(o, Observed(s'), Probes(s));
    hide Balanced, Counted, InOrder, TableOk, Scheduled, ObsOk, Pending, Observed;
  }

  lemma ObsOkTail(o: Obs, rest: seq<Obs>, k: nat)
    requires ObsOk([o] + rest, k)
    ensures ObsOk(rest, k)
  {
    assert forall j :: 0 <= j < |rest| ==> rest[j] == ([o] + rest)[j + 1];
  }

  lemma UpdateCounts(s: State, s': State, o: Obs)
    requires Wf(s) && Counted(s.logic.recv, s.books.received, Probes(s))
    requires s.logic.inbox != [] && o == s.logic.inbox[0] && 1 <= o.ttl <= TTL_CYCLE && o.ttl == TtlOf(o.probe)
    requires o.probe < Probes(s) && s' == Update(s)
    ensures Counted(s'.logic.recv, s'.books.received, Probes(s'))
    ensures s'.books.received == s.books.received + [o.probe]
  {
    forall t | 0 <= t < MAX_HOPS
      ensures s'.logic.recv[t] == Tally(multiset(s'.books.received), Probes(s), t)
    {
      TallyOfMissing(multiset(s.books.received), o.probe, Probes(s), t);
      assert multiset(s'.books.received) == multiset(s.books.received) + multiset{o.probe};
    }
  }

  lemma UpdateBalance(s: State, s': State, o: Obs)
    requires Wf(s) && PhaseOk(s.gate) && Balanced(s)
    requires s.logic.inbox != [] && o == s.logic.inbox[0] && s' == Update(s)
    requires s'.books.received == s.books.received + [o.probe]
    ensures Balanced(s') && Observed(s) == [o] + Observed(s') && Pending(s') == Pending(s)
  {
    hide Balanced;
    assert Observed(s) == [o] + Observed(s');
    assert Pending(s') == Pending(s);
    UpdateBooks(s, s', o);
  }

  lemma UpdateBooks(s: State, s': State, o: Obs)
    requires PhaseOk(s.gate) && PhaseOk(s'.gate) && Balanced(s)
    requires Observed(s) == [o] + Observed(s') && Pending(s') == Pending(s) && s'.gate == s.gate
    requires s'.books == s.books.(received := s.books.received + [o.probe])
    ensures Balanced(s')
  {
    hide Pending, Observed;
    ObsProbesConcat([o], Observed(s'));
    assert ObsProbes([o]) == [o.probe];
  }

  // Reading the clock, with or without a sweep.

  lemma ClockInv(s: State)
    requires Inv(s) && Wf(s) && s.gate.phase.GPopped?
    ensures Inv(Clock(s))
  {
    hide Balanced, Counted, InOrder, Scheduled, ObsOk, TableOk, Reaped, Elapsed;
    var s' := Clock(s);
    ClockQueues(s, s');
    ClockBalance(s, s');
    ReapTable(s.gate.slots, s.clock, Probes(s) - |Pending(s)|);
  }

  lemma ClockQueues(s: State, s': State)
    requires PhaseOk(s.gate) && s.gate.phase.GPopped? && s' == Clock(s)
    ensures PhaseOk(s'.gate) && Pending(s') == Pending(s) && Observed(s') == Observed(s)
  {
  }

  lemma ReapTable(slots: seq<Entry>, now: nat, tracked: int)
    requires TableOk(slots, tracked)
    ensures TableOk(Reaped(slots, now), tracked)
  {
  }

  lemma ClockBalance(s: State, s': State)
    requires PhaseOk(s.gate) && Balanced(s) && s' == Clock(s) && s.gate.phase.GPopped?
    requires Pending(s') == Pending(s) && Observed(s') == Observed(s)
    ensures Balanced(s')
  {
    hide Pending, Observed;
    ReapSplits(s.gate.slots, s.clock);
  }

  // Tracking the next popped intent.

  lemma TrackInv(s: State)
    requires Inv(s) && Wf(s) && s.gate.phase.GTracking? && s.gate.next < |s.gate.popped|
    ensures Inv(TrackNext(s))
  {
    var s', i := TrackNext(s), s.gate.popped[s.gate.next];
    assert Pending(s) == [i] + Pending(s');
    TrackOrder(s, s', i);
    TrackBalance(s, s', i);
    hide Balanced, Counted, InOrder, Scheduled, ObsOk, TableOk;
  }

  lemma TrackOrder(s: State, s': State, i: Intent)
    requires Wf(s) && PhaseOk(s.gate) && PhaseOk(s'.gate) && Pending(s) == [i] + Pending(s')
    requires InOrder(Pending(s), s.books.stamps) && s'.books.stamps == s.books.stamps
    requires TableOk(s.gate.slots, Probes(s) - |Pending(s)|)
    requires s'.gate.slots == Tracked(s.gate.slots, i.ttl, i.seqNo, s.gate.now, i.probe)
    ensures InOrder(Pending(s'), s'.books.stamps)
    ensures TableOk(s'.gate.slots, Probes(s') - |Pending(s')|)
  {
    hide Pending, Integrity;
    var k := Probes(s) - |Pending(s)|;
    assert Pending(s)[0] == IntentOf(k, s.books.stamps[k]);
    forall j | 0 <= j < |Pending(s')|
      ensures Pending(s')[j] == Pending(s)[j + 1]
    {
    }
  }

  lemma TrackBalance(s: State, s': State, i: Intent)
    requires Wf(s) && PhaseOk(s.gate) && s.gate.next < |s.gate.popped| && Balanced(s)
    requires s' == TrackNext(s) && i == s.gate.popped[s.gate.next] && Pending(s) == [i] + Pending(s')
    requires Observed(s') == Observed(s)
    ensures Balanced(s')
  {
    hide Pending, Observed, Active;
    IntentProbesConcat([i], Pending(s'));
    assert IntentProbes([i]) == [i.probe];
    var held := Held(s.gate.slots[HomeSlot(i.seqNo)]);
    assert Lost(s'.books) == Lost(s.books) + held;
    Exchange(multiset(Upto(Probes(s))), multiset(IntentProbes(Pending(s'))), multiset{i.probe}, Active(s.gate.slots),
             Active(s'.gate.slots), held, multiset(ObsProbes(Observed(s))), multiset(s.books.received),
             Lost(s.books)) by {
      ActiveUpdate(s.gate.slots, HomeSlot(i.seqNo), Entry(i.ttl, i.seqNo, s.gate.now, true, i.probe));
    }
  }

  lemma Exchange(all: multiset<nat>, rest: multiset<nat>, p: multiset<nat>, a: multiset<nat>, a': multiset<nat>,
                 held: multiset<nat>, obs: multiset<nat>, rcv: multiset<nat>, lost: multiset<nat>)
    requires all == (p + rest) + a + obs + rcv + lost
    requires a' + held == a + p
    ensures all == rest + a' + obs + rcv + (lost + held)
  {
    assert all == rest + (a + p) + obs + rcv + lost;
  }

  // Releasing an entry, because its send failed or because its reply came.

  lemma ReleaseActive(slots: seq<Entry>, seqNo: nat)
    requires |slots| == MAX_INFLIGHT && Holds(slots, seqNo)
    ensures Active(slots) == Active(Released(slots, seqNo)) + multiset{slots[HomeSlot(seqNo)].probe}
  {
    ActiveUpdate(slots, HomeSlot(seqNo), slots[HomeSlot(seqNo)].(active := false));
  }

  lemma ReleaseTable(slots: seq<Entry>, seqNo: nat, tracked: int)
    requires TableOk(slots, tracked)
    ensures TableOk(Released(slots, seqNo), tracked)
  {
  }

  lemma DropInv(s: State)
    requires Inv(s) && Wf(s) && s.gate.phase.GDropping? && s.gate.phase.from < |s.gate.popped|
    ensures Inv(DropNext(s))
  {
    var s', q := DropNext(s), s.gate.popped[s.gate.phase.from].seqNo;
    assert Pending(s') == Pending(s) && Observed(s') == Observed(s);
    ReleaseTable(s.gate.slots, q, Probes(s) - |Pending(s)|);
    if Holds(s.gate.slots, q) {
      ReleaseActive(s.gate.slots, q);
    }
    DropBalance(s, s', q);
    hide Balanced, Counted, InOrder, Scheduled, ObsOk, TableOk;
  }

  lemma DropBalance(s: State, s': State, q: nat)
    requires Wf(s) && PhaseOk(s.gate) && Balanced(s)
    requires s.gate.phase.GDropping? && s.gate.phase.from < |s.gate.popped|
    requires s' == DropNext(s) && q == s.gate.popped[s.gate.phase.from].seqNo
    requires Pending(s') == Pending(s) && Observed(s') == Observed(s)
    requires Holds(s.gate.slots, q) ==>
               Active(s.gate.slots) == Active(s'.gate.slots) + multiset{s.gate.slots[HomeSlot(q)].probe}
    ensures Balanced(s')
  {
    hide Pending, Observed, Active;
  }

  lemma ReplyInv(s: State, seqNo: nat, kind: ReplyKind)
    requires Inv(s) && Wf(s) && s.gate.phase.GDropping?
    ensures Inv(Receive(s, seqNo, kind))
  {
    hide Balanced, Counted, InOrder, Scheduled, TableOk, Active, ObsOk;
    if Holds(s.gate.slots, seqNo) {
      var s' := Receive(s, seqNo, kind);
      var o := s'.gate.batch[|s.gate.batch|];
      assert Pending(s') == Pending(s) && Observed(s') == Observed(s) + [o];
      ReleaseTable(s.gate.slots, seqNo, Probes(s) - |Pending(s)|);
      ReleaseActive(s.gate.slots, seqNo);
      ReplyObs(s.gate.slots, Observed(s), o, Probes(s) - |Pending(s)|, Probes(s));
      ReplyBalance(s, s', o);
    }
  }

  lemma ReplyObs(slots: seq<Entry>, obs: seq<Obs>, o: Obs, tracked: int, k: nat)
    requires TableOk(slots, tracked) && ObsOk(obs, k) && tracked <= k && Holds(slots, o.seqNo)
    requires o.ttl == slots[HomeSlot(o.seqNo)].ttl && o.probe == slots[HomeSlot(o.seqNo)].probe
    ensures ObsOk(obs + [o], k)
  {
    assert EntryOk(slots[HomeSlot(o.seqNo)], HomeSlot(o.seqNo), tracked);
  }

  lemma ReplyBalance(s: State, s': State, o: Obs)
    requires PhaseOk(s.gate) && PhaseOk(s'.gate) && Balanced(s)
    requires Pending(s') == Pending(s) && Observed(s') == Observed(s) + [o] && s'.books == s.books
    requires Active(s.gate.slots) == Active(s'.gate.slots) + multiset{o.probe}
    ensures Balanced(s')
  {
    hide Pending, Observed, Active;
    ObsProbesConcat(Observed(s), [o]);
    assert ObsProbes([o]) == [o.probe];
  }

  // A crash of the gatekeeper loses what it held.

  lemma RespawnInv(s: State)
    requires Inv(s) && Wf(s)
    ensures Inv(Respawn(s))
  {
    var s', lost := Respawn(s), s.gate.popped[s.gate.next..];
    assert Pending(s) == lost + Pending(s');
    assert Observed(s) == Observed(s') + s.gate.batch;
    assert forall j :: 0 <= j < |Pending(s')| ==> Pending(s')[j] == Pending(s)[|lost| + j];
    assert InOrder(Pending(s'), s'.books.stamps);
    assert ObsOk(Observed(s'), Probes(s')) by {
      assert forall j :: 0 <= j < |Observed(s')| ==> Observed(s')[j] == Observed(s)[j];
    }
    RespawnBalance(s, s', lost);
    hide Balanced, Counted, InOrder, Scheduled, ObsOk;
  }

  lemma RespawnBalance(s: State, s': State, lost: seq<Intent>)
    requires Wf(s) && PhaseOk(s.gate) && Balanced(s) && s' == Respawn(s)
    requires lost == s.gate.popped[s.gate.next..]
    requires Pending(s) == lost + Pending(s') && Observed(s) == Observed(s') + s.gate.batch
    ensures Balanced(s')
  {
    hide Pending, Observed, Active;
    IntentProbesConcat(lost, Pending(s'));
    ObsProbesConcat(Observed(s'), s.gate.batch);
    NothingActive(s'.gate.slots);
  }

  lemma StepInv(s: State, step: Step)
    requires Inv(s) && Wf(s) && Enabled(s, step)
    ensures Inv(Apply(s, step))
  {
    hide Inv;
    match step
    case LogicStage => StageInv(s);
    case LogicUpdate => UpdateInv(s);
    case GateClock => ClockInv(s);
    case GateTrack => TrackInv(s);
    case GateDrop => DropInv(s);
    case GateReply(seqNo, kind) => ReplyInv(s, seqNo, kind);
    case GateRespawn => RespawnInv(s);
    case _ => QuietStepInv(s, step);
  }

  lemma {:induction false} RunInv(run: seq<State>, i: nat)
    requires IsRun(run) && i < |run|
    ensures Inv(run[i]) && Wf(run[i])
  {
    hide Inv;
    if i == 0 {
      InitialInv(run[0]);
    } else {
      RunInv(run, i - 1);
      assert Next(run[i - 1], run[i]);
      var step :| IsStep(run[i - 1], step, run[i]);
      StepInv(run[i - 1], step);
    }
    InvIsWf(run[i]);
  }
}
