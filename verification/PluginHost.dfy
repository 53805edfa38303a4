/**
 One plugin entry of src/plugin/plugin.c: three kinds of requests and a key queue multiplexed
 over one channel of bytes, with a force_sync that resets everything.  The plugin, the pipes and
 the clock are arguments.
 */
module PluginHost {
  import opened Options
  import opened JsonText
  import opened JsonEncode
  import opened JsonDecode
  import opened Framing
  import opened RpcChannel
  import opened KeyQueue
  import opened PluginWire
  import opened PluginLedger
  import opened PluginSteps
  import opened PluginRuns

  const MODAL_INTERVAL_MS: int := 120
  const COALESCE_MS: int := 40
  const RENDER_WAIT_MS: nat := 5

  /** What the outside does during one drain: lines the plugin writes before it, the clock and
      turns of the read loop, the turns of a discard, and the writes of a key. */
  datatype Io = Io(said: seq<string>, wait: Wait, discards: seq<Turn>, writes: seq<Write>)

  // ----- reading a line

  method ReadString(line: string, p: nat, key: string, size: nat) returns (out: string)
    requires p <= |line| && size > 0
    ensures out == StringAt(line, p, key, size)
  {
    hide ObjGet, Unescape, Cut;
    out := "";
    var span := GetMember(line, p, key);
    if span.Some? {
      var ok, text := ParseStr(line[span.value.start..span.value.end], size);
      if ok {
        out := text;
      }
    }
  }

  method ReadBool(line: string, p: nat, key: string) returns (b: Option<bool>)
    requires p <= |line|
    ensures b == BoolAt(line, p, key)
  {
    hide ObjGet;
    var span := GetMember(line, p, key);
    b := if span.Some? then ParseBool(line[span.value.start..span.value.end]) else None;
  }

  method ReadStart(line: string, key: string) returns (at: Option<nat>)
    ensures at == MemberStart(line, key)
  {
    hide ObjGet;
    var span := GetMember(line, 0, key);
    at := if span.Some? then Some(span.value.start) else None;
  }

  method ReadId(line: string) returns (id: int)
    ensures id == LineId(line)
  {
    hide ObjGet, ParseInt;
    var span := GetMember(line, 0, "id");
    id := -1;
    if span.Some? {
      var n := ParseInt(line[span.value.start..span.value.end]).1;
      if n.Some? {
        id := n.value;
      }
    }
  }

  lemma BufferStart()
    ensures Separated("") == ""
  {
  }

  /** nsr_json_rpc_send_request: build the request and send it. */
  method Transmit(chan: Channel, id: int, kind: Kind, params: Json, writes: seq<Write>) returns (ok: bool)
    modifies chan`dead, chan`outgoing
    ensures chan.dead == !ok && (old(chan.dead) ==> !ok && chan.outgoing == old(chan.outgoing))
    ensures ok ==> chan.outgoing == old(chan.outgoing) + Text(Request(id, Name(kind), params)) + "\n"
  {
    hide Text, Request, Separated;
    BufferStart();
    var b := new Buffer();
    b.Emit(params);
    var text := b.buf[..b.len];
    assert text == Text(params);
    var req := BuildRequest(Name(kind), text, params, id);
    ok := chan.Send(req.buf[..req.len], writes);
  }

  class Entry {
    const chan: Channel
    const keys: Queue
    var nextId: int
    var dead: bool
    var renderPending: bool
    var hopsPending: bool
    var keyPending: bool
    var renderId: int
    var hopsId: int
    var keyId: int
    var lastKeyCh: int
    var lastKeyMs: int
    var lastOnKeyMs: int
    var isModal: bool
    var openEditor: bool
    var editorFile: string
    var lastRender: string
    var lastHops: string
    ghost var past: Past

    ghost function Pending(): Pends
      reads this
    {
      Pends(if renderPending then Some(renderId) else None,
            if hopsPending then Some(hopsId) else None,
            if keyPending then Some(keyId) else None)
    }

    ghost function Shown(): Panel
      reads this
    {
      Panel(isModal, lastRender, lastHops, openEditor, editorFile, lastKeyCh, lastKeyMs, lastOnKeyMs)
    }

    /** The entry as a value. */
    ghost function Abs(): Host
      requires keys.Valid()
      reads this, chan, keys, keys.slots
    {
      var outgoing := if chan.dead then "" else chan.outgoing;
      Host(Pending(), nextId, chan.rx + chan.pipe, outgoing, chan.dead, keys.Contents(), past)
    }

    ghost predicate Valid()
      reads this, chan, keys, keys.slots
    {
      chan.Valid() && keys.Valid() && Good(Abs()) && (dead ==> chan.dead)
    }

    /** What holds between calls: moreover, keys wait only behind an outstanding on_key. */
    ghost predicate Settled()
      reads this, chan, keys, keys.slots
    {
      Valid() && (chan.dead || keyPending || keys.Contents() == [])
    }

    /** What holds between the calls from outside: moreover, a cached rendering is a line taken as a
        reply of its kind since the latest force_sync. */
    ghost predicate Current()
      reads this, chan, keys, keys.slots
    {
      Settled() && Cached(past.ids, Shown())
    }

    /** A freshly initialised entry; ids below firstId went to the init call. */
    constructor (firstId: int)
      ensures Current() && !dead && Abs() == Fresh(firstId) && fresh(chan) && fresh(keys) && fresh(keys.slots)
      ensures Shown() == NO_PANEL
    {
      hide Good, Queue.Contents, Queue.Valid, Channel.Valid, Framed, Lines;
      chan := new Channel();
      keys := new Queue();
      nextId, dead := firstId, false;
      renderPending, hopsPending, keyPending := false, false, false;
      renderId, hopsId, keyId := 0, 0, 0;
      lastKeyCh, lastKeyMs, lastOnKeyMs := -1, 0, 0;
      isModal, openEditor, editorFile, lastRender, lastHops := false, false, "", "", "";
      past := Fresh(firstId).past;
      new;
      FreshGood(firstId);
      NothingCached(firstId);
      assert Abs() == Fresh(firstId);
    }

    /** The plugin writes lines, any it likes that answer only ids it was sent. */
    method PluginWrites(texts: seq<string>) returns (ghost evs: seq<Event>)
      requires Valid()
      modifies `past, chan`pipe
      ensures Valid() && AllowedRun(old(Abs()), evs) && Abs() == Run(old(Abs()), evs)
      ensures forall i :: 0 <= i < |evs| ==> evs[i].Says?
      ensures old(Current()) ==> Current()
    {
      hide Good, LineId, Run, AllowedRun, Queue.Contents, Queue.Valid, Framed, Lines;
      evs := [];
      ghost var before := Abs();
      NoEvents(before);
      for k := 0 to |texts|
        invariant Valid() && AllowedRun(before, evs) && Abs() == Run(before, evs)
        invariant forall i :: 0 <= i < |evs| ==> evs[i].Says?
      {
        var a := Arrival(texts[k], nextId, true);
        if Honest(a) {
          SaidGood(Abs(), a.text);
          RunSnoc(before, evs, Says(a.text));
          evs := evs + [Says(a.text)];
          Associate(chan.rx, chan.pipe, a.text + "\n");
          ghost var s := Said(Abs(), a.text);
          chan.pipe := chan.pipe + (a.text + "\n");
          past := s.past;
        }
      }
      SaysKeep(before, evs, Shown());
    }

    /** plugin_send_next_key */
    method SendNextKey(writes: seq<Write>) returns (ghost sent: bool)
      requires Valid()
      modifies `nextId, `dead, `keyPending, `keyId, `past, chan`dead, chan`outgoing, keys
      ensures Settled() && Abs() == NextKey(old(Abs()), sent) && (old(dead) ==> dead)
    {
      hide Good, KeyParams, Text, Request, Queue.Contents, Queue.Valid, Framed, Lines, NextKey;
      sent := false;
      ghost var s := Abs();
      NoKeySent(s);
      if keyPending || chan.dead {
        return;
      }
      var r := keys.Dequeue();
      if r.None? {
        return;
      }
      assert keys.Contents() == s.queue[1..] && s.queue[0] == r.value;
      var id := nextId;
      nextId := nextId + 1;
      var ok := Transmit(chan, id, OnKey, KeyParams(r.value), writes);
      sent := ok;
      KeySentOutcome(s, ok);
      past := NextKey(s, ok).past;
      if ok {
        keyPending, keyId := true, id;
      } else {
        dead := true;
      }
    }

    /** The entry's own part of a reset: nothing outstanding, no keys, no cached replies. */
    method ClearRequests()
      requires keys.Valid()
      modifies this, keys
      ensures keys.Valid() && keys.Contents() == [] && Pending() == NO_PENDS
      ensures Shown() == Cleared(old(Shown()))
      ensures dead == old(dead) && nextId == old(nextId) && past == old(past)
    {
      hide Queue.Contents, Queue.Valid;
      keys.Reset();
      renderPending, hopsPending, keyPending := false, false, false;
      renderId, hopsId, keyId := -1, -1, -1;
      ClearShown();
    }

    method ClearShown()
      modifies `lastRender, `lastHops, `openEditor, `editorFile, `lastKeyCh, `lastKeyMs, `lastOnKeyMs
      ensures Shown() == Cleared(old(Shown()))
    {
      lastOnKeyMs := 0;
      lastKeyCh, lastKeyMs := -1, 0;
      openEditor, editorFile, lastRender, lastHops := false, "", "", "";
    }

    /** plugin_force_sync */
    method ForceSync(discards: seq<Turn>) returns (ghost fate: Fate)
      requires Valid()
      modifies this, chan, keys
      ensures Settled() && Abs() == Resynced(old(Abs()), fate)
              && Possible(fate, old(chan.rx + chan.pipe), old(chan.dead))
      ensures Shown() == Cleared(old(Shown())) && dead == old(dead)
      ensures chan.rx == ""
      ensures !old(chan.dead) ==> (fate.left, fate.died) == DiscardLeaves(old(chan.pipe), discards, DISCARD_READS)
    {
      hide Good, Framed, Lines, Queue.Contents, Queue.Valid, Channel.Valid, Resynced;
      ghost var s := Abs();
      ghost var rx, pipe := chan.rx, chan.pipe;
      chan.DiscardQueued(discards);
      ClearRequests();
      fate := Fate(chan.pipe, chan.dead);
      ResyncedGood(s, rx, pipe, fate);
      past := Resynced(s, fate).past;
      assert chan.rx + chan.pipe == chan.pipe;
      LongerSuffix(rx, pipe, fate);
    }

    /** nsr_json_rpc_try_recv_any: the line read is the first one under way. */
    method TakeNextLine(timeoutMs: nat, w: Wait) returns (got: Received, ghost line: Arrival)
      requires Valid() && w.Monotone()
      modifies `past, chan`rx, chan`pipe, chan`dead, chan`taken, chan`lines
      ensures Valid() && old(past).wire == (if got.Line? then [line] else []) + past.wire
      ensures got.Nothing? ==> Abs() == if chan.dead && !old(chan.dead) then Broke(old(Abs())) else old(Abs())
      ensures got.Line? ==> old(past).wire != [] && Abs() == LineRead(old(Abs()))
      ensures got.Line? ==> chan.dead == old(chan.dead) && line.text == got.text
      ensures got.Line? ==> Honest(line) && (past.ids.clean ==> line.whole)
      ensures timeoutMs == 0 && got.Line? ==> |chan.rx| < |old(chan.rx)|
    {
      hide Good, Wire, LineId, OneLine, Framed, Lines, Queue.Contents, Queue.Valid, Channel.Valid;
      ghost var s := Abs();
      line := Arrival("", 0, false);
      ghost var used;
      got, used := chan.RecvLine(timeoutMs, w);
      Associate("", chan.rx, chan.pipe);
      if got.Nothing? {
        BrokeGood(s);
        return;
      }
      Associate(got.text + "\n", chan.rx, chan.pipe);
      LineReadGood(s, got.text, chan.rx + chan.pipe);
      line := past.wire[0];
      past := LineRead(s).past;
    }

    /** The reply to an outstanding request is taken. */
    method TakeReply(kind: Kind, ghost line: Arrival)
      requires Valid() && Pending().Of(kind) == Some(LineId(line.text)) && Honest(line)
               && (past.ids.clean ==> line.whole)
      modifies `renderPending, `hopsPending, `keyPending, `past
      ensures Valid() && Abs() == Replied(old(Abs()), kind, line)
    {
      hide Good, LineId, Queue.Contents, Queue.Valid, Channel.Valid, Honest, Consumed;
      RepliedGood(Abs(), kind, line);
      past := Replied(Abs(), kind, line).past;
      match kind
      case Render => renderPending := false;
      case RenderHops => hopsPending := false;
      case OnKey => keyPending := false;
    }

    /** The host's side of an on_key result that asks for no reset. */
    method HandleAction(line: string, at: nat) returns (handled: bool)
      requires at <= |line|
      modifies `openEditor, `editorFile, `lastKeyCh, `lastKeyMs, `lastRender
      ensures Shown() == ActionEffect(line, at, old(Shown()))
      ensures handled == (StringAt(line, at, "action", NAME_SIZE) == "open_editor"
                          || BoolAt(line, at, "handled") == Some(true))
    {
      hide StringAt, BoolAt;
      var action := ReadString(line, at, "action", NAME_SIZE);
      if action == "open_editor" {
        var file := ReadString(line, at, "file", FILE_SIZE);
        if file != "" {
          editorFile, openEditor := file, true;
        }
        return true;
      }
      var h := ReadBool(line, at, "handled");
      lastKeyCh, lastKeyMs := -1, 0;
      if h == Some(true) {
        lastRender := "";
      }
      return h == Some(true);
    }

    /** A reset that also tells the host whether the plugin is modal now. */
    method SyncTo(modal: Option<bool>, discards: seq<Turn>) returns (ghost fate: Fate)
      requires Valid()
      modifies this, chan, keys
      ensures Settled() && Abs() == Resynced(old(Abs()), fate)
              && Possible(fate, old(chan.rx + chan.pipe), old(chan.dead))
      ensures dead == old(dead) && chan.rx == ""
      ensures Shown() == Cleared(old(Shown()).(modal := Updated(modal, old(isModal))))
    {
      hide Good, Queue.Contents, Queue.Valid, Channel.Valid, Resynced;
      fate := ForceSync(discards);
      isModal := Updated(modal, isModal);
    }

    /** plugin_handle_on_key_result, on the result at an offset of its line. */
    method HandleOnKeyResult(line: string, at: nat, discards: seq<Turn>) returns (handled: bool, ghost fate: Fate)
      requires Valid() && at <= |line| && !chan.dead
      modifies this, chan, keys
      ensures Possible(fate, old(chan.rx + chan.pipe), false)
      ensures Valid() && dead == old(dead) && |chan.rx| <= |old(chan.rx)|
      ensures Abs() == if BoolAt(line, at, "force_sync") == Some(true) then Resynced(old(Abs()), fate) else old(Abs())
      ensures Shown() == ResultEffect(line, at, old(Shown()))
      ensures handled == (|| BoolAt(line, at, "force_sync") == Some(true)
                          || StringAt(line, at, "action", NAME_SIZE) == "open_editor"
                          || BoolAt(line, at, "handled") == Some(true))
    {
      hide Good, StringAt, BoolAt, Queue.Contents, Queue.Valid, Channel.Valid, Resynced, ActionEffect, Cleared;
      fate := Fate("", false);
      var force := ReadBool(line, at, "force_sync");
      var modal := ReadBool(line, at, "is_modal");
      if force == Some(true) {
        fate := SyncTo(modal, discards);
        return true, fate;
      }
      isModal := Updated(modal, isModal);
      handled := HandleAction(line, at);
    }

    /** plugin_handle_force_sync, once the method is known. */
    method SyncByMessage(text: string, discards: seq<Turn>) returns (ghost fate: Fate)
      requires Valid()
      modifies this, chan, keys
      ensures Settled() && Abs() == Resynced(old(Abs()), fate)
              && Possible(fate, old(chan.rx + chan.pipe), old(chan.dead))
      ensures dead == old(dead) && chan.rx == ""
      ensures Shown() == Cleared(old(Shown()).(modal := Updated(ModalParam(text), old(isModal))))
    {
      hide Good, BoolAt, MemberStart, Queue.Contents, Queue.Valid, Channel.Valid, Resynced;
      var params := ReadStart(text, "params");
      var modal := None;
      if params.Some? {
        modal := ReadBool(text, params.value, "is_modal");
      }
      fate := SyncTo(modal, discards);
    }

    /** The reply to the outstanding on_key is taken and its result acted upon. */
    method AnswerKey(text: string, discards: seq<Turn>, ghost line: Arrival) returns (ghost fate: Fate)
      requires Valid() && !chan.dead && Pending().key == Some(LineId(text)) && line.text == text && Honest(line)
               && (past.ids.clean ==> line.whole)
      modifies this, chan, keys
      ensures Possible(fate, old(chan.rx + chan.pipe), false)
      ensures Valid() && dead == old(dead) && |chan.rx| <= |old(chan.rx)|
      ensures Abs() == AfterKey(old(Abs()), line, fate)
      ensures Shown() == KeyEffect(text, old(Shown()))
    {
      hide Good, BoolAt, MemberStart, LineId, Queue.Contents, Queue.Valid, Channel.Valid, Resynced, Replied, Honest,
           ResultEffect;
      fate := Fate("", false);
      TakeReply(OnKey, line);
      var result := ReadStart(text, "result");
      if result.Some? {
        var _, f := HandleOnKeyResult(text, result.value, discards);
        fate := f;
      }
    }

    /** A rendering arrives. */
    method CacheReply(kind: Kind, text: string, ghost line: Arrival)
      requires Valid() && !kind.OnKey? && Pending().Of(kind) == Some(LineId(line.text)) && Honest(line)
               && (past.ids.clean ==> line.whole)
      modifies `renderPending, `hopsPending, `keyPending, `past, `lastRender, `lastHops
      ensures Valid() && Abs() == Replied(old(Abs()), kind, line)
      ensures Shown() == if kind.Render? then old(Shown()).(render := text) else old(Shown()).(hops := text)
    {
      hide Good, LineId, Queue.Contents, Queue.Valid, Channel.Valid, Honest, Replied;
      TakeReply(kind, line);
      if kind.Render? {
        lastRender := text;
      } else {
        lastHops := text;
      }
    }

    /** A line takes effect: a force_sync message, the reply to a pending request, or nothing. */
    method Dispatch(text: string, discards: seq<Turn>, ghost line: Arrival) returns (ghost fate: Fate)
      requires Valid() && !chan.dead && line.text == text && Honest(line) && (past.ids.clean ==> line.whole)
      modifies this, chan, keys
      ensures Possible(fate, old(chan.rx + chan.pipe), false)
      ensures Valid() && dead == old(dead) && |chan.rx| <= |old(chan.rx)|
      ensures Abs() == Answered(old(Abs()), line, fate)
      ensures Shown() == Effect(text, old(Pending()), old(Shown()))
    {
      hide Good, StringAt, BoolAt, MemberStart, LineId, Queue.Contents, Queue.Valid, Channel.Valid, Resynced, Replied,
           Honest, KeyEffect, ModalParam, Cleared, AfterKey, Answered, Effect;
      fate := Fate("", false);
      ghost var s, p := Abs(), Shown();
      var id := ReadId(text);
      var name := ReadString(text, 0, "method", NAME_SIZE);
      if name == "force_sync" {
        fate := SyncByMessage(text, discards);
        VerdictEffects(s, line, fate, p);
        return;
      }
      if renderPending && id == renderId {
        CacheReply(Render, text, line);
      } else if hopsPending && id == hopsId {
        CacheReply(RenderHops, text, line);
      } else if keyPending && id == keyId {
        fate := AnswerKey(text, discards, line);
      }
      VerdictEffects(s, line, fate, p);
    }

    /** A line takes effect, then the next key goes out if it can. */
    method Process(text: string, io: Io, ghost line: Arrival) returns (ghost fate: Fate, ghost sent: bool)
      requires Valid() && !chan.dead && line.text == text && Honest(line) && (past.ids.clean ==> line.whole)
      modifies this, chan, keys
      ensures Possible(fate, old(chan.rx + chan.pipe), false)
      ensures Settled() && (old(dead) ==> dead) && |chan.rx| <= |old(chan.rx)|
      ensures Abs() == NextKey(Answered(old(Abs()), line, fate), sent)
      ensures Shown() == Effect(text, old(Pending()), old(Shown()))
    {
      hide Good, Queue.Contents, Queue.Valid, Channel.Valid, Answered, Honest, NextKey, Effect, Possible;
      fate := Dispatch(text, io.discards, line);
      sent := SendNextKey(io.writes);
    }

    /** plugin_drain_response: at most one line is read and takes effect, then the next key goes
        out if it can.  A zero timeout reads no pipe, and each line taken shrinks the buffer. */
    method DrainResponse(timeoutMs: nat, io: Io) returns (r: bool, ghost fate: Fate, ghost sent: bool)
      requires Settled() && io.wait.Monotone()
      modifies this, chan, keys
      ensures Settled() && (old(dead) ==> dead)
      ensures !r ==> Shown() == old(Shown()) && (Abs() == old(Abs()) || Abs() == Do(old(Abs()), Breaks))
      ensures r ==> Allowed(old(Abs()), Reads(fate, sent)) && Abs() == Do(old(Abs()), Reads(fate, sent))
      ensures r ==> old(past).wire != [] && Shown() == Effect(old(past).wire[0].text, old(Pending()), old(Shown()))
      ensures timeoutMs == 0 && r ==> |chan.rx| < |old(chan.rx)|
    {
      hide Good, Queue.Contents, Queue.Valid, Channel.Valid, Answered, Honest, NextKey, Effect, Do, Allowed, LineRead,
           Possible;
      ghost var s := Abs();
      BrokenStep(s);
      fate, sent := Fate("", false), false;
      if chan.dead {
        return false, fate, sent;
      }
      var got, line := TakeNextLine(timeoutMs, io.wait);
      if got.Nothing? {
        return false, fate, sent;
      }
      fate, sent := Process(got.text, io, line);
      ReadStep(s, fate, sent);
      return true, fate, sent;
    }

    /** One drain as a run: the plugin's writing, then a reading step, a dead channel, or nothing. */
    method Drain(timeoutMs: nat, io: Io) returns (r: bool, ghost evs: seq<Event>)
      requires Current() && io.wait.Monotone()
      modifies this, chan, keys
      ensures Current() && AllowedRun(old(Abs()), evs) && Abs() == Run(old(Abs()), evs) && (old(dead) ==> dead)
      ensures Shown() == PanelAfter(old(Abs()), evs, old(Shown()))
      ensures forall i :: 0 <= i < |evs| ==> !evs[i].Presses?
      ensures timeoutMs == 0 && r ==> |chan.rx| < |old(chan.rx)|
    {
      hide Good, Queue.Contents, Queue.Valid, Channel.Valid, Do, Allowed, Run, AllowedRun, PanelAfter, Effect, Cached;
      ghost var s, p := Abs(), Shown();
      evs := PluginWrites(io.said);
      PanelSays(s, evs, p);
      ghost var fate, sent;
      r, fate, sent := DrainResponse(timeoutMs, io);
      ghost var ev := if r then Reads(fate, sent) else Breaks;
      OneMore(s, evs, ev, p);
      if r || Abs() != Run(s, evs) {
        evs := evs + [ev];
      }
      CachedRun(s, evs, p);
    }

    /** The draining loop in front of every key: it ends, because a zero timeout never reads and
        every line taken shrinks the buffer. */
    method DrainAll(env: nat -> Io) returns (ghost evs: seq<Event>)
      requires Current() && forall k: nat :: env(k).wait.Monotone()
      modifies this, chan, keys
      ensures Current() && AllowedRun(old(Abs()), evs) && Abs() == Run(old(Abs()), evs) && (old(dead) ==> dead)
      ensures Shown() == PanelAfter(old(Abs()), evs, old(Shown()))
      ensures forall i :: 0 <= i < |evs| ==> !evs[i].Presses?
    {
      hide Good, Queue.Contents, Queue.Valid, Channel.Valid, Run, AllowedRun, PanelAfter, Cached;
      evs := [];
      ghost var s, p := Abs(), Shown();
      NoEvents(s);
      PanelSays(s, [], p);
      var k, more := 0, true;
      while more
        invariant Current() && AllowedRun(s, evs) && Abs() == Run(s, evs) && (old(dead) ==> dead)
        invariant Shown() == PanelAfter(s, evs, p)
        invariant forall i :: 0 <= i < |evs| ==> !evs[i].Presses?
        decreases if more then 1 + |chan.rx| else 0
      {
        ghost var next;
        more, next := Drain(0, env(k));
        RunConcat(s, evs, next);
        PanelConcat(s, evs, next, p);
        evs := evs + next;
        k := k + 1;
      }
    }

    /** Whether a key passes, at clock readings t1 and t2: not a modal key too soon after the last,
        nor a quick repetition. */
    method Passes(ch: int, modal: bool, t1: int, t2: int) returns (pass: bool)
      modifies `lastOnKeyMs, `lastKeyCh, `lastKeyMs
      ensures var throttled := modal && t1 > 0 && old(lastOnKeyMs) > 0 && t1 - old(lastOnKeyMs) < MODAL_INTERVAL_MS;
              var repeated := ch == old(lastKeyCh) && t2 > 0 && old(lastKeyMs) > 0 && t2 - old(lastKeyMs) < COALESCE_MS;
              && pass == (!throttled && !repeated)
              && lastOnKeyMs == (if modal && !throttled then t1 else old(lastOnKeyMs))
              && (lastKeyCh, lastKeyMs) == if pass then (ch, t2) else (old(lastKeyCh), old(lastKeyMs))
    {
      if modal {
        if t1 > 0 && lastOnKeyMs > 0 && t1 - lastOnKeyMs < MODAL_INTERVAL_MS {
          return false;
        }
        lastOnKeyMs := t1;
      }
      if ch == lastKeyCh && t2 > 0 && lastKeyMs > 0 && t2 - lastKeyMs < COALESCE_MS {
        return false;
      }
      lastKeyCh, lastKeyMs := ch, t2;
      return true;
    }

    /** The rest of plugin_try_on_key: a key that passes is queued, a full queue losing its oldest
        for it, and the next key goes out if it can. */
    method AcceptKey(ch: int, modal: bool, reserved: bool, t1: int, t2: int, writes: seq<Write>)
      returns (r: bool, pass: bool, ghost sent: bool)
      requires Settled()
      modifies this, chan`dead, chan`outgoing, keys, keys.slots
      ensures Settled() && r == (modal || reserved) && (old(dead) ==> dead)
      ensures pass == !(|| (modal && t1 > 0 && old(lastOnKeyMs) > 0 && t1 - old(lastOnKeyMs) < MODAL_INTERVAL_MS)
                        || (ch == old(lastKeyCh) && t2 > 0 && old(lastKeyMs) > 0 && t2 - old(lastKeyMs) < COALESCE_MS))
      ensures Abs() == if pass then NextKey(KeyIn(old(Abs()), KeyEvent(ch, modal)), sent) else old(Abs())
      ensures Shown() == old(Shown()).(lastCh := lastKeyCh, lastMs := lastKeyMs, modalMs := lastOnKeyMs)
    {
      hide Good, Queue.Contents, Queue.Valid, Framed, Lines, NextKey, KeyIn;
      sent := false;
      pass := Passes(ch, modal, t1, t2);
      if pass {
        QueueKey(KeyEvent(ch, modal));
        sent := SendNextKey(writes);
      }
      r := modal || reserved;
    }

    method QueueKey(e: KeyEvent)
      requires Valid()
      modifies `past, keys, keys.slots
      ensures Valid() && Abs() == KeyIn(old(Abs()), e)
    {
      hide Good, Queue.Contents, Framed, Lines, OldestDropped, KeyAccepted;
      ghost var s := Abs();
      KeyInGood(s, e);
      var ok := keys.Enqueue(e);
      if !ok {
        var _ := keys.Dequeue();
        var _ := keys.Enqueue(e);
      }
      past := KeyIn(s, e).past;
    }

    /** plugin_try_on_key: a run of steps in which at most this key is accepted, at the end. */
    method TryOnKey(ch: int, modal: bool, reserved: bool, t1: int, t2: int, env: nat -> Io, writes: seq<Write>)
      returns (r: bool, ghost evs: seq<Event>)
      requires Current() && forall k: nat :: env(k).wait.Monotone()
      modifies this, chan, keys, keys.slots
      ensures Current() && r == (modal || reserved)
      ensures AllowedRun(old(Abs()), evs) && Abs() == Run(old(Abs()), evs)
      ensures SameScreen(PanelAfter(old(Abs()), evs, old(Shown())), Shown())
      ensures forall i :: 0 <= i < |evs| && evs[i].Presses? ==> i == |evs| - 1 && evs[i].key == KeyEvent(ch, modal)
    {
      hide Good, Queue.Contents, Queue.Valid, Channel.Valid, NextKey, KeyIn, Run, AllowedRun, PanelAfter, Effect,
           Cached;
      ghost var s, p := Abs(), Shown();
      evs := DrainAll(env);
      ghost var sent;
      var pass;
      r, pass, sent := AcceptKey(ch, modal, reserved, t1, t2, writes);
      OneMore(s, evs, Presses(KeyEvent(ch, modal), sent), p);
      if pass {
        evs := evs + [Presses(KeyEvent(ch, modal), sent)];
      }
      CachedRun(s, evs, p);
      ScreenIsCached(past.ids, PanelAfter(s, evs, p), Shown());
    }

    /** The send step of the render and render_hops functions: drain once, then ask again unless a
        request of this kind is still outstanding. */
    method Refresh(kind: Kind, params: Json, io: Io, writes: seq<Write>) returns (ghost evs: seq<Event>)
      requires Current() && !kind.OnKey? && io.wait.Monotone()
      modifies this, chan, keys
      ensures Current() && AllowedRun(old(Abs()), evs) && Abs() == Run(old(Abs()), evs)
      ensures Shown() == PanelAfter(old(Abs()), evs, old(Shown()))
      ensures chan.dead || Pending().Of(kind).Some?
    {
      hide Good, Queue.Contents, Queue.Valid, Channel.Valid, Do, Allowed, Asked, Run, AllowedRun, PanelAfter, Effect,
           Cached;
      ghost var s, p := Abs(), Shown();
      var read;
      read, evs := Drain(RENDER_WAIT_MS, io);
      ghost var ok := Ask(kind, params, writes);
      AskStep(Run(s, evs), kind, params, ok);
      OneMore(s, evs, Asks(kind, params, ok), p);
      evs := evs + [Asks(kind, params, ok)];
      CachedRun(s, evs, p);
    }

    /** The id is kept whether or not the request went out; the flag says if it did. */
    method NoteRequest(kind: Kind, id: int, done: bool)
      requires !kind.OnKey?
      modifies `renderPending, `hopsPending, `renderId, `hopsId
      ensures Pending() == old(Pending()).With(kind, if done then Some(id) else None)
    {
      if kind.Render? {
        renderId, renderPending := id, done;
      } else {
        hopsId, hopsPending := id, done;
      }
    }

    /** One request for the panel or the hop annotations, unless one is outstanding. */
    method Ask(kind: Kind, params: Json, writes: seq<Write>) returns (ghost ok: bool)
      requires Settled() && !kind.OnKey?
      modifies `nextId, `dead, `renderPending, `hopsPending, `renderId, `hopsId, `past, chan`dead, chan`outgoing
      ensures Settled() && Abs() == Asked(old(Abs()), kind, params, ok)
    {
      hide Good, Queue.Contents, Queue.Valid, Framed, Lines, Text, Request, Name, Asked;
      ok := false;
      AskedNothing(Abs(), kind, params);
      if (if kind.Render? then renderPending else hopsPending) {
        return;
      }
      if chan.dead {
        dead := true;
        return;
      }
      ghost var s := Abs();
      var id := nextId;
      nextId := nextId + 1;
      var done := Transmit(chan, id, kind, params, writes);
      ok := done;
      NoteRequest(kind, id, done);
      AskedOutcome(s, kind, params, done);
      past := Asked(s, kind, params, done).past;
      if !done {
        dead := true;
      }
    }
  }

  lemma NoKeySent(s: Host)
    ensures s.pends.key.Some? || s.dead || s.queue == [] ==> NextKey(s, false) == s
  {
    hide KeyLost;
  }

  lemma KeySentOutcome(s: Host, ok: bool)
    requires Good(s) && s.pends.key.None? && !s.dead && s.queue != []
    ensures var t := NextKey(s, ok);
            && Good(t) && t.pends == s.pends.With(OnKey, if ok then Some(s.next) else None) && t.next == s.next + 1
            && t.bytes == s.bytes && t.queue == s.queue[1..] && t.dead == !ok
            && t.outgoing == if !ok then ""
                             else s.outgoing + Text(Request(s.next, "on_key", KeyParams(s.queue[0]))) + "\n"
  {
    NextKeyGood(s, ok);
    hide Good, Sent, SendFailed, KeySent, OneSwept, Text, Request, KeyParams;
  }

  lemma AskedNothing(s: Host, kind: Kind, params: Json)
    ensures s.pends.Of(kind).Some? || s.dead ==> Asked(s, kind, params, false) == s
  {
    hide RequestLost;
  }

  lemma AskedOutcome(s: Host, kind: Kind, params: Json, ok: bool)
    requires Good(s) && !s.dead && s.pends.Of(kind).None? && !kind.OnKey?
    ensures var t := Asked(s, kind, params, ok);
            && Good(t) && t.pends == s.pends.With(kind, if ok then Some(s.next) else None) && t.next == s.next + 1
            && t.bytes == s.bytes && t.queue == s.queue && t.dead == !ok
            && t.outgoing == if ok then s.outgoing + Text(Request(s.next, Name(kind), params)) + "\n" else ""
  {
    RequestLostGood(s, kind);
    RequestOutGood(s, kind, params);
    hide Good, Sent, SendFailed, Text, Request, Name;
  }

  lemma NoEvents(s: Host)
    ensures Run(s, []) == s && AllowedRun(s, [])
  {
  }

  lemma BrokenStep(s: Host)
    ensures Do(s, Breaks) == Broke(s)
  {
  }

  lemma ReadStep(s: Host, fate: Fate, sent: bool)
    requires s.past.wire != []
    ensures Do(s, Reads(fate, sent)) == NextKey(Answered(LineRead(s), s.past.wire[0], fate), sent)
    ensures Possible(fate, LineRead(s).bytes, s.dead) ==> Allowed(s, Reads(fate, sent))
    ensures LineRead(s).pends == s.pends && LineRead(s).dead == s.dead
  {
    hide NextKey, Answered, Wire, Possible;
  }

  /** The verdict on a line and its two effects, as the tests are made. */
  lemma VerdictEffects(s: Host, line: Arrival, fate: Fate, p: Panel)
    ensures var id, text := LineId(line.text), line.text;
            var a, e := Answered(s, line, fate), Effect(text, s.pends, p);
            if IsForceSync(text) then
              a == Resynced(s, fate) && e == Cleared(p.(modal := Updated(ModalParam(text), p.modal)))
            else if s.pends.render == Some(id) then a == Replied(s, Render, line) && e == p.(render := text)
            else if s.pends.hops == Some(id) then a == Replied(s, RenderHops, line) && e == p.(hops := text)
            else if s.pends.key == Some(id) then a == AfterKey(s, line, fate) && e == KeyEffect(text, p)
            else a == s && e == p
  {
    hide IsForceSync, Resynced, Replied, LineId, Cleared, KeyEffect, ModalParam, ResultSyncs;
  }

  ghost function AfterKey(s: Host, line: Arrival, fate: Fate): Host {
    var o := Replied(s, OnKey, line);
    if ResultSyncs(line.text) then Resynced(o, fate) else o
  }

  lemma OneMore(s: Host, evs: seq<Event>, ev: Event, p: Panel)
    ensures var t, q := Run(s, evs), PanelAfter(s, evs, p);
            && Run(s, evs + [ev]) == Do(t, ev)
            && AllowedRun(s, evs + [ev]) == (AllowedRun(s, evs) && (ev.Breaks? || Allowed(t, ev)))
            && PanelAfter(s, evs + [ev], p) ==
               if ev.Reads? && t.past.wire != [] then Effect(t.past.wire[0].text, t.pends, q) else q
  {
    hide Do, Effect, Run, AllowedRun, PanelAfter;
    RunSnoc(s, evs, ev);
    PanelSnoc(s, evs, ev, p);
  }

  lemma ScreenIsCached(h: Ids, p: Panel, q: Panel)
    requires Cached(h, p) && SameScreen(p, q)
    ensures Cached(h, q)
  {
    hide Backed;
  }

  lemma {:induction false} SaysKeep(s: Host, evs: seq<Event>, p: Panel)
    requires AllowedRun(s, evs) && forall i :: 0 <= i < |evs| ==> evs[i].Says?
    ensures PluginSteps.Settled(s) ==> PluginSteps.Settled(Run(s, evs))
    ensures PluginSteps.Settled(s) && Cached(s.past.ids, p) ==> Cached(Run(s, evs).past.ids, p)
  {
    hide PluginSteps.Settled, Cached, Run, AllowedRun, PanelAfter;
    if PluginSteps.Settled(s) {
      RunSettled(s, evs);
      PanelSays(s, evs, p);
      if Cached(s.past.ids, p) {
        CachedRun(s, evs, p);
      }
    }
  }

  lemma AskStep(s: Host, kind: Kind, params: Json, ok: bool)
    requires !kind.OnKey?
    ensures Allowed(s, Asks(kind, params, ok)) && Do(s, Asks(kind, params, ok)) == Asked(s, kind, params, ok)
    ensures Asked(s, kind, params, ok).dead || Asked(s, kind, params, ok).pends.Of(kind).Some?
  {
    hide Sent, SendFailed, Text, Request;
  }

  lemma LongerSuffix(rx: string, pipe: string, fate: Fate)
    ensures Possible(fate, pipe, false) ==> Possible(fate, rx + pipe, false)
  {
  }

  lemma Associate(a: string, b: string, c: string)
    ensures a + b + c == a + (b + c) && "" + b == b
  {
  }
}
