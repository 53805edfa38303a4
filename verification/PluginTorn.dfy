/**
 The run that shows why a discard must end with a line: a force_sync (src/plugin/plugin.c:506-529)
 cuts an honest reply in two, and the host takes the second half for the answer to a later request.
 */
module PluginTorn {
  import opened Options
  import opened Texts
  import opened JsonText
  import opened JsonDecode
  import opened JsonRecover
  import opened Framing
  import opened RpcChannel
  import opened PluginWire
  import opened PluginLedger
  import opened PluginSteps

  const SYNC := Obj(Member("method", Str("force_sync"), NoMember))

  lemma NoMethodHere(id: int)
    ensures !IsForceSync(Text(IdOnly(id)) + "}")
  {
    var v := IdOnly(id);
    var s := Text(v) + "}";
    AtSelf("", Text(v), "}");
    assert "" + Text(v) + "}" == s;
    EscapeFixesPlain("id");
    hide Text, Escape, ObjGet, At;
    assert FirstWith(v.members, "method") == None;
    ObjGetOfText(s, 0, v.members, "method");
  }

  /** The message is what the host takes for a force_sync, has no id, and is one line. */
  lemma SyncMessage()
    ensures IsForceSync(Text(SYNC)) && LineId(Text(SYNC)) == -1 && OneLine(Text(SYNC))
  {
    var s := Text(SYNC);
    TextIsOneLine(SYNC);
    WholeText(s);
    EscapeFixesPlain("method");
    NameParses();
    hide Text, Escape, ObjGet, At, Quoted, Unescape, Cut;
    assert FirstWith(SYNC.members, "id") == None;
    ObjGetOfText(s, 0, SYNC.members, "id");
    assert FirstWith(SYNC.members, "method") == Some(Str("force_sync"));
    ObjGetOfText(s, 0, SYNC.members, "method");
    AtSlice(s, ObjGet(s, 0, "method").value.start, Text(Str("force_sync")));
  }

  lemma NameParses()
    ensures var val := Text(Str("force_sync"));
            && |val| >= 2 && val[0] == '"' && val[|val| - 1] == '"'
            && Cut(Unescape(val[1..|val| - 1]), NAME_SIZE) == "force_sync"
  {
    hide Quoted, Unescape;
    StringRoundTrip("force_sync", NAME_SIZE);
  }

  lemma OneOnWire(a: Arrival)
    ensures Wire([a]) == a.text + "\n" && Wire([]) == ""
  {
    assert [a][1..] == [];
  }

  // ----- the steps of the run

  /** A host without keys whose lines under way spell its unread bytes. */
  ghost predicate Idle(s: Host) {
    !s.dead && s.queue == [] && s.bytes == Wire(s.past.wire)
  }

  lemma AskStep(s: Host, params: Json)
    requires Idle(s) && s.pends.render.None?
    ensures var t := Do(s, Asks(Render, params, true));
            && Allowed(s, Asks(Render, params, true)) && Idle(t)
            && t.pends == s.pends.With(Render, Some(s.next)) && t.next == s.next + 1
            && t.past.wire == s.past.wire && t.past.ids.cut == s.past.ids.cut
  {
    hide Text, Request, Wire;
  }

  lemma SayStep(s: Host, text: string)
    requires Idle(s) && Honest(Arrival(text, s.next, true))
    ensures var t := Do(s, Says(text));
            && Allowed(s, Says(text)) && Idle(t) && t.pends == s.pends && t.next == s.next
            && t.past.wire == s.past.wire + [Arrival(text, s.next, true)] && t.past.ids == s.past.ids
  {
    WireSnoc(s.past.wire, Arrival(text, s.next, true));
    hide LineId, Wire;
  }

  /** Reading a force_sync with one line behind it, of which the discard takes d bytes. */
  lemma SyncStep(s: Host, a: Arrival, d: nat)
    requires Idle(s) && |s.past.wire| == 2 && IsForceSync(s.past.wire[0].text) && s.past.wire[1] == a && d <= |a.text|
    ensures var ev := Reads(Fate(a.text[d..] + "\n", false), false); var t := Do(s, ev);
            && Allowed(s, ev) && !t.dead && t.queue == [] && t.pends == NO_PENDS && t.next == s.next
            && t.past.wire == After([a], d) && t.bytes == a.text[d..] + "\n" && t.past.ids.cut == s.next
  {
    OneOnWire(a);
    assert s.past.wire[1..] == [a];
    hide IsForceSync, LineId, Wire, After, AllSwept, IdSet;
    var w, left := a.text + "\n", a.text[d..] + "\n";
    assert |w| - |left| == d && left == w[d..];
  }

  /** Reading the one line under way, which carries the id of the outstanding render request. */
  lemma ReplyStep(s: Host, a: Arrival)
    requires Idle(s) && s.past.wire == [a] && !IsForceSync(a.text) && s.pends.render == Some(LineId(a.text))
    ensures var ev := Reads(Fate("", false), false); var t := Do(s, ev);
            && Allowed(s, ev) && LineId(a.text) in t.past.ids.consumed
            && t.past.ids.consumed[LineId(a.text)] == Acceptance(Render, a, s.past.ids.cut)
  {
    OneOnWire(a);
    var r := LineRead(s);
    assert [a][1..] == [];
    AnsweredAsRender(r, a);
    NoKeyWaits(Replied(r, Render, a));
    TakenAsRender(r, a);
    hide IsForceSync, LineId, Wire, NextKey, Answered, Replied;
  }

  lemma AnsweredAsRender(r: Host, a: Arrival)
    requires !IsForceSync(a.text) && r.pends.render == Some(LineId(a.text))
    ensures Answered(r, a, Fate("", false)) == Replied(r, Render, a)
  {
    hide IsForceSync, LineId, Replied;
  }

  lemma NoKeyWaits(s: Host)
    ensures s.queue == [] ==> NextKey(s, false) == s
  {
    hide KeyLost;
  }

  lemma TakenAsRender(r: Host, a: Arrival)
    ensures var t := Replied(r, Render, a);
            && t.queue == r.queue && LineId(a.text) in t.past.ids.consumed
            && t.past.ids.consumed[LineId(a.text)] == Acceptance(Render, a, r.past.ids.cut)
  {
    hide LineId;
  }

  lemma ThreeSteps(s: Host, e1: Event, e2: Event, e3: Event)
    requires Allowed(s, e1) && Allowed(Do(s, e1), e2) && Allowed(Do(Do(s, e1), e2), e3)
    ensures AllowedRun(s, [e1, e2, e3]) && Run(s, [e1, e2, e3]) == Do(Do(Do(s, e1), e2), e3)
  {
    hide Do, Allowed;
    assert [] + [e1] == [e1] && [e1] + [e2] == [e1, e2] && [e1, e2] + [e3] == [e1, e2, e3];
    RunSnoc(s, [], e1);
    RunSnoc(s, [e1], e2);
    RunSnoc(s, [e1, e2], e3);
  }

  /** The host asks for a rendering; the plugin writes a force_sync and then its reply. */
  function Before(params: Json, reply: string): seq<Event> {
    [Asks(Render, params, true), Says(Text(SYNC)), Says(reply)]
  }

  /** The force_sync is read and its discard leaves this much; the host asks again and reads on. */
  function Behind(params: Json, left: string): seq<Event> {
    [Reads(Fate(left, false), false), Asks(Render, params, true), Reads(Fate("", false), false)]
  }

  lemma UntilTheCut(firstId: int, params: Json, a: Arrival)
    requires 0 <= firstId + 1 && a.asOf == firstId + 1 && a.whole && Honest(a)
    ensures AllowedRun(Fresh(firstId), Before(params, a.text))
    ensures var s := Run(Fresh(firstId), Before(params, a.text));
            Idle(s) && s.next == firstId + 1 && s.past.wire == [Arrival(Text(SYNC), firstId + 1, true), a]
  {
    hide Text, LineId, IsForceSync, Do, Allowed, Wire, Run, AllowedRun;
    SyncMessage();
    var s0, evs := Fresh(firstId), Before(params, a.text);
    OneOnWire(a);
    AskStep(s0, params);
    SayStep(Do(s0, evs[0]), Text(SYNC));
    SayStep(Do(Do(s0, evs[0]), evs[1]), a.text);
    ThreeSteps(s0, evs[0], evs[1], evs[2]);
  }

  lemma FromTheCut(s: Host, params: Json, a: Arrival, d: nat, torn: Arrival)
    requires Idle(s) && d <= |a.text| && s.past.wire == [Arrival(Text(SYNC), s.next, true), a]
    requires After([a], d) == [torn] && !IsForceSync(torn.text) && LineId(torn.text) == s.next
    requires torn.text == a.text[d..]
    ensures var evs := Behind(params, a.text[d..] + "\n");
            && AllowedRun(s, evs) && s.next in Run(s, evs).past.ids.consumed
            && Run(s, evs).past.ids.consumed[s.next] == Acceptance(Render, torn, s.next)
  {
    hide Text, LineId, IsForceSync, Do, Allowed, Wire, Run, AllowedRun, After;
    var evs := Behind(params, a.text[d..] + "\n");
    SyncMessage();
    OneOnWire(torn);
    SyncStep(s, a, d);
    AskStep(Do(s, evs[0]), params);
    ReplyStep(Do(Do(s, evs[0]), evs[1]), torn);
    ThreeSteps(s, evs[0], evs[1], evs[2]);
  }

  /** For every first id: the host asks for a rendering; the plugin writes a force_sync and then an
      honest reply with an object of its own inside; one read of the discard takes what stands
      before that object, and its next poll sees no more; the host asks again, and takes the rest
      of the old line, written before, for the answer. */
  lemma StaleReplyAccepted(firstId: int, params: Json)
    requires 0 <= firstId + 1 <= INT_MAX
    ensures var s, reply, id := Fresh(firstId), Text(Nested(firstId, firstId + 1)), firstId + 1;
            var left := DiscardLeaves(reply + "\n", [Read(|Head(firstId)|), Quiet], DISCARD_READS).0;
            var ids := Run(s, Before(params, reply) + Behind(params, left)).past.ids;
            && AllowedRun(s, Before(params, reply) + Behind(params, left))
            && id in ids.consumed && ids.consumed[id] == Acceptance(Render, Torn(id), id)
  {
    hide Text, LineId, IsForceSync, Wire, Run, AllowedRun, After, Nested, IdOnly, DiscardLeaves, Honest, Before, Behind,
         Head, Torn;
    var next := firstId + 1;
    var a, d := Arrival(Text(Nested(firstId, next)), next, true), |Head(firstId)|;
    FragmentMimicsReply(next);
    AnyCut(a.text + "\n", d);
    assert (a.text + "\n")[d..] == a.text[d..] + "\n";
    TornIsNoSync(next);
    UntilTheCut(firstId, params, a);
    FromTheCut(Run(Fresh(firstId), Before(params, a.text)), params, a, d, Torn(next));
    RunConcat(Fresh(firstId), Before(params, a.text), Behind(params, a.text[d..] + "\n"));
  }

  lemma TornIsNoSync(next: int)
    ensures !IsForceSync(Torn(next).text) && Torn(next).asOf == next && !Torn(next).whole
  {
    NoMethodHere(next);
  }
}
