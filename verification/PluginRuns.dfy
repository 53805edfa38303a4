/**
 What holds in every run of a plugin entry: which replies are accepted, what becomes of requests
 and keys, what the cached renderings are, and which replies are still under way.
 */
module PluginRuns {
  import opened Options
  import opened JsonText
  import opened Framing
  import opened KeyQueue
  import opened PluginWire
  import opened PluginLedger
  import opened PluginSteps

  /** What a force_sync or a failed write gave up is never answered later. */
  lemma AbandonedNeverAnswered(s: Host, evs: seq<Event>, id: int)
    requires Settled(s) && AllowedRun(s, evs) && id in s.past.ids.abandoned
    ensures id !in Run(s, evs).past.ids.consumed && id in Run(s, evs).past.ids.abandoned
  {
    RunSettled(s, evs);
    NotBoth(Run(s, evs), id);
    hide Run, AllowedRun, Settled, Good;
  }

  lemma NotBoth(s: Host, id: int)
    requires Settled(s) && id in s.past.ids.abandoned
    ensures id !in s.past.ids.consumed
  {
    hide TrailOk, CallsOk, WireOk, Sound;
  }

  // ----- torn lines are old

  /** A line whose beginning a discard took was written before that discard. */
  ghost predicate TornIsOld(line: Arrival, cut: int) {
    line.whole || line.asOf <= cut
  }

  /** Every torn line, under way or taken as a reply, is older than the latest force_sync there was
      when it came to be read. */
  ghost predicate Aged(s: Host) {
    && (forall i :: 0 <= i < |s.past.wire| ==> TornIsOld(s.past.wire[i], s.past.ids.cut))
    && (forall id :: id in s.past.ids.consumed ==> TornIsOld(s.past.ids.consumed[id].line, s.past.ids.consumed[id].cut))
  }

  lemma {:induction false} AfterIsOld(ls: seq<Arrival>, d: nat, next: int)
    requires AllHonest(ls, next)
    ensures forall i :: 0 <= i < |After(ls, d)| ==> TornIsOld(After(ls, d)[i], next)
    decreases |ls|
  {
    hide Honest;
    if ls != [] && d > |ls[0].text| {
      AfterIsOld(ls[1..], d - |ls[0].text| - 1, next);
    }
  }

  lemma ResetAged(s: Host, fate: Fate)
    requires Good(s) && Aged(s)
    ensures Aged(Resynced(s, fate))
  {
    hide TrailOk, CallsOk, IdsOk, Honest, After, Wire, AllSwept, IdSet;
    var d := if |fate.left| <= |s.bytes| then |s.bytes| - |fate.left| else 0;
    AfterIsOld(s.past.wire, d, s.next);
  }

  lemma RepliedAged(s: Host, kind: Kind, line: Arrival)
    requires Aged(s) && TornIsOld(line, s.past.ids.cut)
    ensures Aged(Replied(s, kind, line))
  {
    hide LineId;
  }

  lemma AnsweredAged(s: Host, line: Arrival, fate: Fate)
    requires Good(s) && Aged(s) && Honest(line) && (s.past.ids.clean ==> line.whole) && TornIsOld(line, s.past.ids.cut)
    ensures Aged(Answered(s, line, fate))
  {
    hide Good, Aged, LineId, IsForceSync, ResultSyncs, Honest, Resynced, Replied, TornIsOld;
    var v := Judge(line.text, s.pends);
    if v.Sync? {
      ResetAged(s, fate);
    } else if v.Reply? {
      RepliedAged(s, v.kind, line);
      RepliedGood(s, v.kind, line);
      ResetAged(Replied(s, v.kind, line), fate);
    }
  }

  /** Steps that touch neither the lines under way nor the replies taken, except to add a line. */
  lemma SendsKeepAged(s: Host, t: Host)
    requires Aged(s) && t.past.ids.cut == s.past.ids.cut && t.past.ids.consumed == s.past.ids.consumed
    requires t.past.wire == s.past.wire || exists a: Arrival :: a.whole && t.past.wire == s.past.wire + [a]
    ensures Aged(t)
  {
  }

  lemma ReadsAged(s: Host, fate: Fate, sent: bool)
    requires Good(s) && Aged(s) && Allowed(s, Reads(fate, sent))
    ensures Aged(Do(s, Reads(fate, sent)))
  {
    hide Good, Wire, Answered, NextKey, Honest, OneLine;
    var line, rest := s.past.wire[0], Wire(s.past.wire[1..]);
    WireHead(s);
    LineReadGood(s, line.text, rest);
    AnsweredAged(LineRead(s), line, fate);
    var t := Answered(LineRead(s), line, fate);
    NextKeyIds(t, sent);
    KeyKeepsWire(t, sent);
    SendsKeepAged(t, NextKey(t, sent));
  }

  lemma OthersAged(s: Host, ev: Event)
    requires Aged(s) && !ev.Reads?
    ensures Aged(Do(s, ev))
  {
    hide Aged;
    CutKept(s, ev);
    OthersAdd(s, ev);
    SendsKeepAged(s, Do(s, ev));
  }

  lemma OthersAdd(s: Host, ev: Event)
    requires !ev.Reads?
    ensures Do(s, ev).past.ids.consumed == s.past.ids.consumed
    ensures Do(s, ev).past.wire ==
            if ev.Says? then s.past.wire + [Arrival(ev.text, s.next, true)] else s.past.wire
  {
    hide Text, Request, KeyParams, KeySent, OneSwept, LineId;
  }

  lemma {:induction false} RunAged(firstId: int, evs: seq<Event>)
    requires AllowedRun(Fresh(firstId), evs)
    ensures Aged(Run(Fresh(firstId), evs))
  {
    hide Do, Allowed, Settled, Good;
    if evs != [] {
      var n := |evs| - 1;
      var s := Run(Fresh(firstId), evs[..n]);
      RunAged(firstId, evs[..n]);
      FreshSettled(firstId);
      RunSettled(Fresh(firstId), evs[..n]);
      SettledIsGood(s);
      if evs[n].Reads? {
        ReadsAged(s, evs[n].fate, evs[n].sent);
      } else {
        OthersAged(s, evs[n]);
      }
    }
  }

  lemma SettledIsGood(s: Host)
    requires Settled(s)
    ensures Good(s)
  {
  }

  /** In every run of a fresh entry each reply went to the kind that asked, for a request not older
      than the latest force_sync; it was written after that request exactly when its line was whole,
      which every line is as long as no discard was torn. */
  lemma RepliesMatch(firstId: int, evs: seq<Event>, id: int)
    requires AllowedRun(Fresh(firstId), evs) && id in Run(Fresh(firstId), evs).past.ids.consumed
    ensures var s := Run(Fresh(firstId), evs);
            var a := s.past.ids.consumed[id];
            && id in s.past.ids.issued && a.kind == s.past.ids.issued[id] && LineId(a.line.text) == id && a.cut <= id
            && (id < a.line.asOf <==> a.line.whole)
            && (s.past.ids.clean ==> a.line.whole)
  {
    var s := Run(Fresh(firstId), evs);
    FreshGood(firstId);
    RunSettled(Fresh(firstId), evs);
    RunAged(firstId, evs);
    hide TrailOk, CallsOk, WireOk, LineId, Run, AllowedRun;
    assert Sound(id, s.past.ids.consumed[id], s.past.ids.clean);
  }

  /** In every run of a fresh entry, a request is outstanding exactly while its kind's flag is set
      with its id: it was neither answered nor given up. */
  lemma OutstandingIffPending(firstId: int, evs: seq<Event>, id: int)
    requires AllowedRun(Fresh(firstId), evs)
    ensures var s := Run(Fresh(firstId), evs);
            (id in s.past.ids.issued && id !in s.past.ids.consumed && id !in s.past.ids.abandoned) <==>
            exists k: Kind :: s.pends.Of(k) == Some(id)
  {
    var s := Run(Fresh(firstId), evs);
    FreshGood(firstId);
    RunSettled(Fresh(firstId), evs);
    hide TrailOk, CallsOk, WireOk, Sound, Run, AllowedRun;
    if exists k: Kind :: s.pends.Of(k) == Some(id) {
      var k: Kind :| s.pends.Of(k) == Some(id);
      assert Open(s.past.ids, id, k);
    }
  }

  /** In every run of a fresh entry: the on_key requests carry accepted keys in order; keys wait
      only while one is outstanding on a live channel; and without a force_sync or a dead channel
      every accepted key was sent, is waiting or was dropped from a full queue. */
  lemma KeysInOrder(firstId: int, evs: seq<Event>)
    requires AllowedRun(Fresh(firstId), evs)
    ensures var s := Run(Fresh(firstId), evs);
            var t := s.past.trail;
            && (s.dead || s.pends.key.Some? || s.queue == [])
            && |KeyCalls(s.past.calls)| == |t.sent|
            && (forall i, j :: 0 <= i < j < |t.sent| ==> t.sent[i] < t.sent[j])
            && (forall i :: 0 <= i < |t.sent| ==>
                              && 0 <= t.sent[i] < |t.accepted|
                              && KeyCalls(s.past.calls)[i] == KeyParams(t.accepted[t.sent[i]]))
            && (!s.past.synced && !s.dead ==>
                  forall i :: 0 <= i < |t.accepted| - |s.queue| ==> i in t.sent || i in t.overflow)
  {
    FreshGood(firstId);
    RunSettled(Fresh(firstId), evs);
    hide WireOk, IdsOk, Run, AllowedRun, KeyCalls, KeyParams, Outgoing;
  }

  /** A key is dropped only to make room in a full queue, and then it is the oldest waiting. */
  lemma OverflowIsOldest(s: Host, ev: Event)
    requires Settled(s) && Allowed(s, ev)
    ensures var t, t' := s.past.trail, Do(s, ev).past.trail;
            t'.overflow == if ev.Presses? && |s.queue| == CAPACITY then t.overflow + {|t.accepted| - CAPACITY}
                           else t.overflow
  {
    hide Good, Judge, ResultSyncs, After, Wire, Synced, Consumed, Sent, SendFailed, Text, Request, KeyParams;
  }

  lemma FreshSettled(firstId: int)
    ensures Settled(Fresh(firstId))
  {
    FreshGood(firstId);
  }

  /** In every run of a fresh entry two outstanding requests never share an id, and each id is below
      next_id and not older than the latest force_sync. */
  lemma PendingDistinct(firstId: int, evs: seq<Event>, j: Kind, k: Kind)
    requires AllowedRun(Fresh(firstId), evs)
    ensures var s := Run(Fresh(firstId), evs);
            s.pends.Of(j).Some? && s.pends.Of(k).Some? ==>
              && s.past.ids.cut <= s.pends.Of(j).value < s.next
              && (s.pends.Of(j) == s.pends.Of(k) ==> j == k)
  {
    var s := Run(Fresh(firstId), evs);
    FreshSettled(firstId);
    RunSettled(Fresh(firstId), evs);
    hide TrailOk, CallsOk, WireOk, Sound, Run, AllowedRun;
    if s.pends.Of(j).Some? && s.pends.Of(k).Some? {
      assert Open(s.past.ids, s.pends.Of(j).value, j) && Open(s.past.ids, s.pends.Of(k).value, k);
    }
  }

  // ----- replies under way

  /** A step that leaves a request outstanding leaves every line that would answer it under way. */
  lemma StillUnderWay(s: Host, ev: Event, kind: Kind, a: Arrival)
    requires Settled(s) && Allowed(s, ev) && a in s.past.wire && s.pends.Of(kind) == Some(LineId(a.text))
    requires Do(s, ev).pends.Of(kind) == Some(LineId(a.text))
    ensures a in Do(s, ev).past.wire
  {
    if ev.Reads? {
      ReadLeaves(s, ev.fate, ev.sent, kind, a);
    } else {
      OthersKeepWire(s, ev);
    }
  }

  lemma OthersKeepWire(s: Host, ev: Event)
    requires !ev.Reads?
    ensures s.past.wire <= Do(s, ev).past.wire
  {
    hide Text, Request, Sent, SendFailed, KeyParams, KeySent, OneSwept, LineId;
  }

  lemma KeyKeepsWire(s: Host, sent: bool)
    ensures NextKey(s, sent).past.wire == s.past.wire
    ensures forall k: Kind :: !k.OnKey? ==> NextKey(s, sent).pends.Of(k) == s.pends.Of(k)
    ensures NextKey(s, sent).pends.key != s.pends.key ==> NextKey(s, sent).pends.key == Some(s.next)
  {
    hide Text, Request, Sent, SendFailed, KeyParams, KeySent, OneSwept;
  }

  lemma ReadLeaves(s: Host, fate: Fate, sent: bool, kind: Kind, a: Arrival)
    requires Settled(s) && Allowed(s, Reads(fate, sent)) && a in s.past.wire && s.pends.Of(kind) == Some(LineId(a.text))
    requires Do(s, Reads(fate, sent)).pends.Of(kind) == Some(LineId(a.text))
    ensures a in Do(s, Reads(fate, sent)).past.wire
  {
    var id := LineId(a.text);
    var line, r := s.past.wire[0], LineRead(s);
    var t := Answered(r, line, fate);
    KeyKeepsWire(t, sent);
    PendingBelowNext(s, kind);
    AnswerKeepsOrClears(r, line, fate, kind);
    hide Good, Answered, NextKey, LineId, Judge;
    assert t.pends.Of(kind) == Some(id);
  }

  lemma PendingBelowNext(s: Host, kind: Kind)
    requires Good(s) && s.pends.Of(kind).Some?
    ensures s.pends.Of(kind).value < s.next && forall k: Kind :: s.pends.Of(k) == s.pends.Of(kind) ==> k == kind
  {
    hide TrailOk, CallsOk, WireOk, Sound;
    assert Open(s.past.ids, s.pends.Of(kind).value, kind);
    forall k: Kind | s.pends.Of(k) == s.pends.Of(kind)
      ensures k == kind
    {
      assert Open(s.past.ids, s.pends.Of(k).value, k);
    }
  }

  /** A line that leaves a request of this kind outstanding was not its answer and dropped no line. */
  lemma AnswerKeepsOrClears(r: Host, line: Arrival, fate: Fate, kind: Kind)
    requires r.pends.Of(kind).Some?
    requires forall k: Kind :: r.pends.Of(k) == r.pends.Of(kind) ==> k == kind
    ensures var t := Answered(r, line, fate);
            && t.next == r.next
            && (t.pends.Of(kind).Some? ==> t.past.wire == r.past.wire && r.pends.Of(kind) != Some(LineId(line.text)))
  {
    hide LineId, IsForceSync, ResultSyncs, After, Synced, AllSwept, Consumed;
    var p := r.pends;
    assert p.Of(Render) == p.render && p.Of(RenderHops) == p.hops && p.Of(OnKey) == p.key;
  }

  /** A step sends at most one request, with the next id. */
  lemma StepIssues(s: Host, ev: Event)
    ensures s.next <= Do(s, ev).next
    ensures forall id :: id in Do(s, ev).past.ids.issued ==> id in s.past.ids.issued || id >= s.next
  {
    if ev.Reads? && s.past.wire != [] {
      AnswerIssues(LineRead(s), s.past.wire[0], ev.fate);
    }
    hide Text, Request, KeyParams, KeySent, OneSwept, Answered;
  }

  lemma AnswerIssues(s: Host, line: Arrival, fate: Fate)
    ensures Answered(s, line, fate).next == s.next && Answered(s, line, fate).past.ids.issued == s.past.ids.issued
  {
    hide LineId, Judge, ResultSyncs, After, AllSwept;
  }

  lemma {:induction false} RunIssues(s: Host, evs: seq<Event>)
    ensures s.next <= Run(s, evs).next
    ensures forall id :: id in Run(s, evs).past.ids.issued ==> id in s.past.ids.issued || id >= s.next
  {
    hide Do;
    if evs != [] {
      RunIssues(s, evs[..|evs| - 1]);
      StepIssues(Run(s, evs[..|evs| - 1]), evs[|evs| - 1]);
    }
  }

  /** Once a request is no longer outstanding it never is again. */
  lemma OutstandingBefore(s: Host, evs: seq<Event>, kind: Kind, id: int)
    requires Settled(s) && AllowedRun(s, evs) && id < s.next && Run(s, evs).pends.Of(kind) == Some(id)
    ensures s.pends.Of(kind) == Some(id)
  {
    RunSettled(s, evs);
    RunIssues(s, evs);
    var t := Run(s, evs);
    hide TrailOk, CallsOk, WireOk, Sound, Run, AllowedRun;
    assert Open(t.past.ids, id, kind);
  }

  /** In every run that keeps a request outstanding, a line under way that answers it stays so. */
  lemma {:induction false} ReplyStaysUnderWay(s: Host, evs: seq<Event>, kind: Kind, a: Arrival)
    requires Settled(s) && AllowedRun(s, evs) && a in s.past.wire && s.pends.Of(kind) == Some(LineId(a.text))
    requires Run(s, evs).pends.Of(kind) == Some(LineId(a.text))
    ensures a in Run(s, evs).past.wire
  {
    hide Do, Allowed, LineId, Settled;
    if evs != [] {
      var n := |evs| - 1;
      var t := Run(s, evs[..n]);
      RunSettled(s, evs[..n]);
      PendingBelow(s, kind);
      RunIssues(s, evs[..n]);
      RunOne(t, evs[n]);
      OutstandingBefore(t, [evs[n]], kind, LineId(a.text));
      ReplyStaysUnderWay(s, evs[..n], kind, a);
      StillUnderWay(t, evs[n], kind, a);
    }
  }

  lemma RunOne(s: Host, ev: Event)
    ensures Run(s, [ev]) == Do(s, ev) && AllowedRun(s, [ev]) == Allowed(s, ev)
  {
    RunSnoc(s, [], ev);
    assert [] + [ev] == [ev];
  }

  lemma PendingBelow(s: Host, kind: Kind)
    requires Settled(s) && s.pends.Of(kind).Some?
    ensures s.pends.Of(kind).value < s.next
  {
    PendingBelowNext(s, kind);
  }

  lemma SplitRun(s: Host, evs: seq<Event>, i: nat)
    requires i < |evs| && AllowedRun(s, evs)
    ensures var t := Run(s, evs[..i]);
            && Run(s, evs[..i + 1]) == Do(t, evs[i]) && Allowed(t, evs[i]) && AllowedRun(s, evs[..i + 1])
            && AllowedRun(Do(t, evs[i]), evs[i + 1..]) && Run(s, evs) == Run(Do(t, evs[i]), evs[i + 1..])
  {
    hide Do, Allowed, Run, AllowedRun;
    assert evs == evs[..i + 1] + evs[i + 1..] && evs[..i + 1] == evs[..i] + [evs[i]];
    RunConcat(s, evs[..i + 1], evs[i + 1..]);
    RunSnoc(s, evs[..i], evs[i]);
  }

  lemma SaysStep(s: Host, text: string)
    requires Allowed(s, Says(text))
    ensures var t := Do(s, Says(text)); Arrival(text, s.next, true) in t.past.wire && t.next == s.next
    ensures LineId(text) < s.next
  {
    hide LineId;
  }

  /** In every run of a fresh entry, a reply written for a request that is still outstanding is
      still under way, whole: a set pending flag means that no such reply was read or discarded. */
  lemma PendingReplyUnderWay(firstId: int, evs: seq<Event>, i: nat, kind: Kind)
    requires AllowedRun(Fresh(firstId), evs) && i < |evs| && evs[i].Says?
    requires Run(Fresh(firstId), evs).pends.Of(kind) == Some(LineId(evs[i].text))
    ensures Arrival(evs[i].text, Run(Fresh(firstId), evs[..i]).next, true) in Run(Fresh(firstId), evs).past.wire
  {
    var f, id := Fresh(firstId), LineId(evs[i].text);
    var before, rest := Run(f, evs[..i]), evs[i + 1..];
    FreshSettled(firstId);
    hide Do, Allowed, LineId, Settled, Good, Fresh, Run, AllowedRun;
    SplitRun(f, evs, i);
    var s := Run(f, evs[..i + 1]);
    RunSettled(f, evs[..i + 1]);
    SaysStep(before, evs[i].text);
    OutstandingBefore(s, rest, kind, id);
    ReplyStaysUnderWay(s, rest, kind, Arrival(evs[i].text, before.next, true));
  }

  // ----- what is shown

  const NO_PANEL := Panel(false, "", "", false, "", -1, 0, 0)

  /** The rest of the entry after a run, up to the memory of the last key: only reading a line
      changes it. */
  function PanelAfter(s: Host, evs: seq<Event>, p: Panel): Panel {
    if evs == [] then p
    else
      var n := |evs| - 1;
      PanelStep(Run(s, evs[..n]), evs[n], PanelAfter(s, evs[..n], p))
  }

  function PanelStep(s: Host, ev: Event, p: Panel): Panel {
    if ev.Reads? && s.past.wire != [] then Effect(s.past.wire[0].text, s.pends, p) else p
  }

  ghost predicate SameScreen(p: Panel, q: Panel) {
    q == p.(lastCh := q.lastCh, lastMs := q.lastMs, modalMs := q.modalMs)
  }

  lemma PanelSnoc(s: Host, evs: seq<Event>, ev: Event, p: Panel)
    ensures PanelAfter(s, evs + [ev], p) == PanelStep(Run(s, evs), ev, PanelAfter(s, evs, p))
  {
    hide PanelStep;
    assert (evs + [ev])[..|evs|] == evs;
  }

  lemma {:induction false} PanelConcat(s: Host, a: seq<Event>, b: seq<Event>, p: Panel)
    ensures PanelAfter(s, a + b, p) == PanelAfter(Run(s, a), b, PanelAfter(s, a, p))
  {
    hide PanelStep, Do;
    if b == [] {
      assert a + b == a;
    } else {
      var n := |b| - 1;
      PanelConcat(s, a, b[..n], p);
      RunConcat(s, a, b[..n]);
      PanelSnoc(s, a + b[..n], b[n], p);
      assert a + b == a + b[..n] + [b[n]];
    }
  }

  lemma {:induction false} PanelSays(s: Host, evs: seq<Event>, p: Panel)
    requires forall i :: 0 <= i < |evs| ==> !evs[i].Reads?
    ensures PanelAfter(s, evs, p) == p
  {
    if evs != [] {
      PanelSays(s, evs[..|evs| - 1], p);
    }
  }

  ghost predicate Answers(h: Ids, id: int, kind: Kind, text: string) {
    id in h.consumed && h.consumed[id].kind == kind && h.consumed[id].line.text == text && h.consumed[id].cut == h.cut
  }

  /** A cached text is a line taken as a reply of this kind since the latest force_sync. */
  ghost predicate Backed(h: Ids, kind: Kind, text: string) {
    text != "" ==> exists id :: Answers(h, id, kind, text)
  }

  lemma BackedGrows(h: Ids, h': Ids, kind: Kind, text: string)
    requires Backed(h, kind, text) && Grows(h, h') && h'.cut == h.cut
    ensures Backed(h', kind, text)
  {
    if text != "" {
      var id :| Answers(h, id, kind, text);
      assert Answers(h', id, kind, text);
    }
  }

  lemma CutKept(s: Host, ev: Event)
    requires !ev.Reads?
    ensures Do(s, ev).past.ids.cut == s.past.ids.cut
  {
    hide Text, Request, KeyParams, KeySent, OneSwept, LineId;
  }

  lemma NextKeyIds(s: Host, sent: bool)
    ensures NextKey(s, sent).past.ids.cut == s.past.ids.cut
    ensures NextKey(s, sent).past.ids.consumed == s.past.ids.consumed
  {
    hide Text, Request, KeyParams, KeySent, OneSwept;
  }

  /** What a line may leave cached: nothing, what was cached before with no reset since, or the line
      itself, taken as a reply of that kind. */
  ghost predicate Caches(h: Ids, h': Ids, kind: Kind, was: string, text: string, line: string) {
    || text == ""
    || (text == was && h'.cut == h.cut)
    || (text == line && Answers(h', LineId(line), kind, line))
  }

  lemma KeyEffectCaches(line: string, p: Panel)
    ensures var e := KeyEffect(line, p);
            && (e.render == "" || (!ResultSyncs(line) && e.render == p.render))
            && (e.hops == "" || (!ResultSyncs(line) && e.hops == p.hops))
  {
    hide StringAt, BoolAt, MemberStart;
  }

  lemma TakenIds(s: Host, kind: Kind, line: Arrival)
    ensures var h := Replied(s, kind, line).past.ids;
            h.cut == s.past.ids.cut && Answers(h, LineId(line.text), kind, line.text)
  {
    hide LineId;
  }

  lemma EffectCaches(s: Host, line: Arrival, fate: Fate, p: Panel)
    ensures var t, e := Answered(s, line, fate), Effect(line.text, s.pends, p);
            && Caches(s.past.ids, t.past.ids, Render, p.render, e.render, line.text)
            && Caches(s.past.ids, t.past.ids, RenderHops, p.hops, e.hops, line.text)
  {
    KeyEffectCaches(line.text, p);
    TakenIds(s, Render, line);
    TakenIds(s, RenderHops, line);
    TakenIds(s, OnKey, line);
    hide LineId, IsForceSync, ResultSyncs, KeyEffect, Replied, Resynced, ModalParam, Answers;
  }

  lemma CachedIsBacked(h: Ids, h': Ids, kind: Kind, was: string, text: string, line: string)
    requires Backed(h, kind, was) && Grows(h, h') && Caches(h, h', kind, was, text, line)
    ensures Backed(h', kind, text)
  {
    hide LineId, Grows;
    if text == was && h'.cut == h.cut {
      BackedGrows(h, h', kind, was);
    }
  }

  /** As far as replies go, reading a line is its effect on the lines and ids as they were. */
  lemma ReadsAsAnswer(s: Host, fate: Fate, sent: bool)
    requires s.past.wire != []
    ensures var r := LineRead(s); var t := Answered(r, s.past.wire[0], fate).past.ids;
            var h := Do(s, Reads(fate, sent)).past.ids;
            && r.past.ids == s.past.ids && r.pends == s.pends
            && forall kind, was, text, line :: Caches(s.past.ids, t, kind, was, text, line) ==>
                 Caches(s.past.ids, h, kind, was, text, line)
  {
    var t := Answered(LineRead(s), s.past.wire[0], fate);
    NextKeyIds(t, sent);
    hide Answered, NextKey, Wire, LineId;
  }

  lemma ReadsBacked(s: Host, fate: Fate, sent: bool, p: Panel)
    requires Settled(s) && Allowed(s, Reads(fate, sent))
    requires Backed(s.past.ids, Render, p.render) && Backed(s.past.ids, RenderHops, p.hops)
    ensures var h, e := Do(s, Reads(fate, sent)).past.ids, Effect(s.past.wire[0].text, s.pends, p);
            Backed(h, Render, e.render) && Backed(h, RenderHops, e.hops)
  {
    SomethingToRead(s, fate, sent);
    ReadsAsAnswer(s, fate, sent);
    hide Good, Answered, NextKey, Effect, LineId, Backed, Grows, Do, Allowed, LineRead, Settled, Answers;
    var line := s.past.wire[0];
    var e, h := Effect(line.text, s.pends, p), Do(s, Reads(fate, sent)).past.ids;
    DoGrows(s, Reads(fate, sent));
    EffectCaches(LineRead(s), line, fate, p);
    CachedIsBacked(s.past.ids, h, Render, p.render, e.render, line.text);
    CachedIsBacked(s.past.ids, h, RenderHops, p.hops, e.hops, line.text);
  }

  /** Both cached texts are. */
  ghost predicate Cached(h: Ids, p: Panel) {
    Backed(h, Render, p.render) && Backed(h, RenderHops, p.hops)
  }

  lemma CachedStep(s: Host, ev: Event, p: Panel)
    requires Settled(s) && Allowed(s, ev) && Cached(s.past.ids, p)
    ensures Cached(Do(s, ev).past.ids, PanelStep(s, ev, p))
  {
    hide Do, Allowed, Settled, Backed, Effect, Grows;
    DoGrows(s, ev);
    if ev.Reads? {
      SomethingToRead(s, ev.fate, ev.sent);
      ReadsBacked(s, ev.fate, ev.sent, p);
    } else {
      CutKept(s, ev);
      BackedGrows(s.past.ids, Do(s, ev).past.ids, Render, p.render);
      BackedGrows(s.past.ids, Do(s, ev).past.ids, RenderHops, p.hops);
    }
  }

  lemma {:induction false} CachedRun(s: Host, evs: seq<Event>, p: Panel)
    requires Settled(s) && AllowedRun(s, evs) && Cached(s.past.ids, p)
    ensures Cached(Run(s, evs).past.ids, PanelAfter(s, evs, p))
  {
    hide Do, Allowed, Settled, Cached, PanelStep;
    if evs != [] {
      var n := |evs| - 1;
      CachedRun(s, evs[..n], p);
      RunSettled(s, evs[..n]);
      CachedStep(Run(s, evs[..n]), evs[n], PanelAfter(s, evs[..n], p));
    }
  }

  /** In every run of a fresh entry, a non-empty cached rendering is the text of a line that was
      taken as the reply to a request of its kind since the latest force_sync. */
  lemma CachedIsFresh(firstId: int, evs: seq<Event>)
    requires AllowedRun(Fresh(firstId), evs)
    ensures Cached(Run(Fresh(firstId), evs).past.ids, PanelAfter(Fresh(firstId), evs, NO_PANEL))
  {
    hide Run, AllowedRun, PanelAfter, Settled;
    FreshSettled(firstId);
    NothingCached(firstId);
    CachedRun(Fresh(firstId), evs, NO_PANEL);
  }

  lemma NothingCached(firstId: int)
    ensures Cached(Fresh(firstId).past.ids, NO_PANEL)
  {
  }

  lemma SomethingToRead(s: Host, fate: Fate, sent: bool)
    requires Allowed(s, Reads(fate, sent))
    ensures s.past.wire != []
  {
  }
}
