/**
 What one line, one key or one request does to a plugin entry, on values
 (src/plugin/plugin.c:506-711, 831-835, 934-1001), and that every step keeps the ledger.
 */
module PluginSteps {
  import opened Options
  import opened JsonText
  import opened JsonDecode
  import opened Framing
  import opened KeyQueue
  import opened PluginWire
  import opened PluginLedger

  const NAME_SIZE: nat := 64
  const FILE_SIZE: nat := 256
  // ----- reading a line

  /** A string member in a buffer of the given size; empty when it is missing or no string. */
  function StringAt(line: string, p: nat, key: string, size: nat): string
    requires p <= |line| && size > 0
  {
    match ObjGet(line, p, key)
    case None => ""
    case Some(span) =>
      var v := line[span.start..span.end];
      if |v| >= 2 && v[0] == '"' && v[|v| - 1] == '"' then Cut(Unescape(v[1..|v| - 1]), size) else ""
  }

  function BoolAt(line: string, p: nat, key: string): Option<bool>
    requires p <= |line|
  {
    match ObjGet(line, p, key)
    case None => None
    case Some(span) => ParseBool(line[span.start..span.end])
  }

  function MemberStart(line: string, key: string): (r: Option<nat>)
    ensures r.Some? ==> r.value <= |line|
  {
    match ObjGet(line, 0, key)
    case None => None
    case Some(span) => Some(span.start)
  }

  predicate IsForceSync(line: string) {
    StringAt(line, 0, "method", NAME_SIZE) == "force_sync"
  }

  function Updated(o: Option<bool>, was: bool): bool {
    if o.Some? then o.value else was
  }

  /** Whether the result in a reply asks for a reset. */
  predicate ResultSyncs(line: string) {
    MemberStart(line, "result").Some? && BoolAt(line, MemberStart(line, "result").value, "force_sync") == Some(true)
  }

  /** What the host makes of a line: the pending requests are asked in this order. */
  datatype Verdict = Sync | Reply(kind: Kind) | Ignored

  function Judge(line: string, p: Pends): Verdict {
    if IsForceSync(line) then Sync
    else if p.render == Some(LineId(line)) then Reply(Render)
    else if p.hops == Some(LineId(line)) then Reply(RenderHops)
    else if p.key == Some(LineId(line)) then Reply(OnKey)
    else Ignored
  }

  /** What an entry keeps besides requests and keys: the modal flag, the cached replies, a file to
      edit, and the last key and the times that throttle keys. */
  datatype Panel = Panel(modal: bool, render: string, hops: string, edit: bool, file: string, lastCh: int,
                         lastMs: int, modalMs: int)

  function Cleared(p: Panel): Panel {
    Panel(p.modal, "", "", false, "", -1, 0, 0)
  }

  /** An on_key result that asks for no reset: open an editor, or redraw if it was handled. */
  function ActionEffect(line: string, at: nat, p: Panel): Panel
    requires at <= |line|
  {
    var file := StringAt(line, at, "file", FILE_SIZE);
    if StringAt(line, at, "action", NAME_SIZE) == "open_editor" then
      if file != "" then p.(edit := true, file := file) else p
    else p.(lastCh := -1, lastMs := 0, render := if BoolAt(line, at, "handled") == Some(true) then "" else p.render)
  }

  function ResultEffect(line: string, at: nat, p: Panel): Panel
    requires at <= |line|
  {
    var q := p.(modal := Updated(BoolAt(line, at, "is_modal"), p.modal));
    if BoolAt(line, at, "force_sync") == Some(true) then Cleared(q) else ActionEffect(line, at, q)
  }

  function ModalParam(line: string): Option<bool> {
    match MemberStart(line, "params")
    case None => None
    case Some(at) => BoolAt(line, at, "is_modal")
  }

  /** What a line does to the rest of the entry. */
  function Effect(line: string, pends: Pends, p: Panel): Panel {
    match Judge(line, pends)
    case Sync => Cleared(p.(modal := Updated(ModalParam(line), p.modal)))
    case Reply(kind) =>
      (match kind
       case Render => p.(render := line)
       case RenderHops => p.(hops := line)
       case OnKey => KeyEffect(line, p))
    case Ignored => p
  }

  function KeyEffect(line: string, p: Panel): Panel {
    match MemberStart(line, "result")
    case None => p
    case Some(at) => ResultEffect(line, at, p)
  }

  /** How a discard turned out: the bytes it left, and whether it found the channel dead. */
  datatype Fate = Fate(left: string, died: bool)

  /** A discard drops a prefix of the unread bytes, and a dead channel stays dead. */
  ghost predicate Possible(fate: Fate, bytes: string, dead: bool) {
    |fate.left| <= |bytes| && fate.left == bytes[|bytes| - |fate.left|..] && (dead ==> fate.died)
  }

  function Resynced(s: Host, fate: Fate): Host {
    if fate.died then Broke(Reset(s, fate.left)) else Reset(s, fate.left)
  }

  /** A line takes effect. */
  function Answered(s: Host, line: Arrival, fate: Fate): Host {
    match Judge(line.text, s.pends)
    case Sync => Resynced(s, fate)
    case Reply(kind) =>
      var o := Replied(s, kind, line);
      if kind.OnKey? && ResultSyncs(line.text) then Resynced(o, fate) else o
    case Ignored => s
  }

  lemma ResyncedGood(s: Host, rx: string, pipe: string, fate: Fate)
    requires Good(s) && s.bytes == rx + pipe && Possible(fate, pipe, s.dead)
    ensures var r := Resynced(s, fate);
            && Good(r) && r.pends == NO_PENDS && r.next == s.next && r.queue == []
            && r.bytes == fate.left && r.dead == fate.died
            && r.outgoing == if fate.died then "" else s.outgoing
  {
    hide Good;
    ResetGood(s, rx, pipe, fate.left);
    BrokeGood(Reset(s, fate.left));
  }

  // ----- runs

  /** One step: the plugin writes a line, the host asks for a rendering, a key is accepted, a line
      is read and takes effect, or the channel is found dead. */
  datatype Event =
    | Says(text: string)
    | Asks(kind: Kind, params: Json, ok: bool)
    | Presses(key: KeyEvent, sent: bool)
    | Reads(fate: Fate, sent: bool)
    | Breaks

  ghost predicate Allowed(s: Host, ev: Event) {
    match ev
    case Says(text) => Honest(Arrival(text, s.next, true))
    case Asks(kind, _, _) => !kind.OnKey?
    case Presses(_, _) => true
    case Reads(fate, _) => s.past.wire != [] && Possible(fate, Wire(s.past.wire[1..]), s.dead)
    case Breaks => true
  }

  function Do(s: Host, ev: Event): Host {
    match ev
    case Says(text) => Said(s, text)
    case Asks(kind, params, ok) => Asked(s, kind, params, ok)
    case Presses(key, sent) => NextKey(KeyIn(s, key), sent)
    case Reads(fate, sent) =>
      if s.past.wire == [] then s else NextKey(Answered(LineRead(s), s.past.wire[0], fate), sent)
    case Breaks => Broke(s)
  }

  /** A request for a rendering, unless one of the kind is outstanding or the channel is dead. */
  function Asked(s: Host, kind: Kind, params: Json, ok: bool): Host {
    if s.pends.Of(kind).Some? || s.dead then s else if ok then RequestOut(s, kind, params) else RequestLost(s, kind)
  }

  ghost predicate Settled(s: Host) {
    Good(s) && (s.dead || s.pends.key.Some? || s.queue == [])
  }

  lemma AnsweredGood(s: Host, line: Arrival, fate: Fate)
    requires Good(s) && Honest(line) && (s.past.ids.clean ==> line.whole)
    requires Possible(fate, s.bytes, s.dead)
    ensures Good(Answered(s, line, fate))
  {
    hide Good, LineId, IsForceSync, ResultSyncs, Honest, Resynced, Replied;
    var v := Judge(line.text, s.pends);
    assert s.bytes == "" + s.bytes;
    if v.Sync? {
      ResyncedGood(s, "", s.bytes, fate);
    } else if v.Reply? {
      RepliedGood(s, v.kind, line);
      RepliedKeeps(s, v.kind, line);
      ResyncedGood(Replied(s, v.kind, line), "", s.bytes, fate);
    }
  }

  lemma RepliedKeeps(s: Host, kind: Kind, line: Arrival)
    ensures Replied(s, kind, line).bytes == s.bytes && Replied(s, kind, line).dead == s.dead
  {
  }

  lemma NextKeySettles(s: Host, sent: bool)
    requires Good(s)
    ensures Settled(NextKey(s, sent))
  {
    NextKeyGood(s, sent);
    hide Good, Sent, KeySent, OneSwept, SendFailed, KeyParams, Text, Request;
  }

  lemma AskedSettled(s: Host, kind: Kind, params: Json, ok: bool)
    requires Settled(s) && !kind.OnKey?
    ensures Settled(Asked(s, kind, params, ok))
  {
    if s.pends.Of(kind).None? && !s.dead {
      RequestOutGood(s, kind, params);
      RequestLostGood(s, kind);
    }
    hide Good, Sent, SendFailed, Text, Request;
  }

  lemma ReadsSettled(s: Host, fate: Fate, sent: bool)
    requires Good(s) && Allowed(s, Reads(fate, sent))
    ensures Settled(Do(s, Reads(fate, sent)))
  {
    var line, rest := s.past.wire[0], Wire(s.past.wire[1..]);
    WireHead(s);
    hide Good, Wire, Answered, NextKey, Settled, Honest, OneLine;
    LineReadGood(s, line.text, rest);
    AnsweredGood(LineRead(s), line, fate);
    NextKeySettles(Answered(LineRead(s), line, fate), sent);
  }

  lemma WireHead(s: Host)
    requires Good(s) && s.past.wire != []
    ensures s.bytes == s.past.wire[0].text + "\n" + Wire(s.past.wire[1..]) && OneLine(s.past.wire[0].text)
  {
    hide IdsOk, TrailOk, CallsOk, LineId;
    assert Honest(s.past.wire[0]);
  }

  /** Every step keeps the ledger and leaves keys waiting only behind an outstanding on_key. */
  lemma DoSettled(s: Host, ev: Event)
    requires Settled(s) && Allowed(s, ev)
    ensures Settled(Do(s, ev))
  {
    hide Good, Wire, Answered, NextKey, Honest, Asked, KeyIn;
    match ev
    case Says(text) => SaidGood(s, text);
    case Asks(kind, params, ok) => AskedSettled(s, kind, params, ok);
    case Presses(key, sent) =>
      KeyInGood(s, key);
      NextKeySettles(KeyIn(s, key), sent);
    case Reads(fate, sent) => ReadsSettled(s, fate, sent);
    case Breaks => BrokeGood(s);
  }

  /** What the ledger knows it never forgets. */
  ghost predicate Grows(h: Ids, h': Ids) {
    && h.abandoned <= h'.abandoned && h.cut <= h'.cut
    && (forall id :: id in h.issued ==> id in h'.issued && h'.issued[id] == h.issued[id])
    && (forall id :: id in h.consumed ==> id in h'.consumed && h'.consumed[id] == h.consumed[id])
  }

  lemma AnsweredGrows(s: Host, line: Arrival, fate: Fate)
    requires Good(s) && Honest(line)
    ensures Grows(s.past.ids, Answered(s, line, fate).past.ids)
  {
    hide TrailOk, CallsOk, WireOk, LineId, IsForceSync, ResultSyncs, After, AllSwept, Sound, OneLine;
    var v := Judge(line.text, s.pends);
    if v.Reply? {
      assert s.pends.Of(v.kind) == Some(LineId(line.text));
      assert Open(s.past.ids, LineId(line.text), v.kind);
    }
  }

  lemma NextKeyGrows(s: Host, sent: bool)
    requires Good(s)
    ensures Grows(s.past.ids, NextKey(s, sent).past.ids)
  {
    hide TrailOk, CallsOk, WireOk, Sound, KeyParams, Text, Request, KeySent, OneSwept;
    NextIsNew(s.past.ids, s.pends, s.next);
  }

  lemma ReadsGrows(s: Host, fate: Fate, sent: bool)
    requires Good(s) && Allowed(s, Reads(fate, sent))
    ensures Grows(s.past.ids, Do(s, Reads(fate, sent)).past.ids)
  {
    var line, rest := s.past.wire[0], Wire(s.past.wire[1..]);
    WireHead(s);
    hide Good, Wire, Answered, NextKey, Honest, OneLine;
    LineReadGood(s, line.text, rest);
    AnsweredGood(LineRead(s), line, fate);
    AnsweredGrows(LineRead(s), line, fate);
    NextKeyGrows(Answered(LineRead(s), line, fate), sent);
  }

  lemma DoGrows(s: Host, ev: Event)
    requires Settled(s) && Allowed(s, ev)
    ensures Grows(s.past.ids, Do(s, ev).past.ids)
  {
    if ev.Reads? {
      ReadsGrows(s, ev.fate, ev.sent);
    } else if ev.Presses? {
      KeyInGood(s, ev.key);
      NextKeyGrows(KeyIn(s, ev.key), ev.sent);
    } else {
      NextIsNew(s.past.ids, s.pends, s.next);
    }
    hide Good, Settled, Allowed, Answered, NextKey, Text, Request;
  }

  function Run(s: Host, evs: seq<Event>): Host {
    if evs == [] then s else Do(Run(s, evs[..|evs| - 1]), evs[|evs| - 1])
  }

  ghost predicate AllowedRun(s: Host, evs: seq<Event>) {
    evs == [] || (AllowedRun(s, evs[..|evs| - 1]) && Allowed(Run(s, evs[..|evs| - 1]), evs[|evs| - 1]))
  }

  lemma RunSnoc(s: Host, evs: seq<Event>, ev: Event)
    ensures Run(s, evs + [ev]) == Do(Run(s, evs), ev)
    ensures AllowedRun(s, evs + [ev]) == (AllowedRun(s, evs) && Allowed(Run(s, evs), ev))
  {
    hide Do, Allowed;
    assert (evs + [ev])[..|evs|] == evs;
  }

  lemma {:induction false} RunConcat(s: Host, a: seq<Event>, b: seq<Event>)
    ensures AllowedRun(s, a + b) == (AllowedRun(s, a) && AllowedRun(Run(s, a), b))
    ensures Run(s, a + b) == Run(Run(s, a), b)
  {
    hide Do, Allowed;
    if b == [] {
      assert a + b == a;
    } else {
      var n := |b| - 1;
      RunConcat(s, a, b[..n]);
      RunSnoc(s, a + b[..n], b[n]);
      assert a + b == a + b[..n] + [b[n]];
    }
  }

  /** In every run from a fresh entry, and from any settled one, the ledger holds and grows. */
  lemma {:induction false} RunSettled(s: Host, evs: seq<Event>)
    requires Settled(s) && AllowedRun(s, evs)
    ensures Settled(Run(s, evs)) && Grows(s.past.ids, Run(s, evs).past.ids)
  {
    hide Do, Allowed, Settled;
    if evs != [] {
      var n := |evs| - 1;
      RunSettled(s, evs[..n]);
      DoSettled(Run(s, evs[..n]), evs[n]);
      DoGrows(Run(s, evs[..n]), evs[n]);
    }
  }
}
