/**
 What must hold of a plugin entry's request ids and keys over a whole run, on values: every id
 ever sent with its fate, and every key ever accepted with its fate.
 */
module PluginLedger {
  import opened Options
  import opened JsonText
  import opened JsonRecover
  import opened Framing
  import opened PluginWire
  import opened KeyQueue

  datatype Kind = Render | RenderHops | OnKey

  function Name(kind: Kind): string {
    match kind
    case Render => "render"
    case RenderHops => "render_hops"
    case OnKey => "on_key"
  }

  // ----- requests and replies

  /** The outstanding request of each kind. */
  datatype Pends = Pends(render: Option<int>, hops: Option<int>, key: Option<int>) {
    function Of(kind: Kind): Option<int> {
      match kind
      case Render => render
      case RenderHops => hops
      case OnKey => key
    }

    function With(kind: Kind, id: Option<int>): (p: Pends)
      ensures p.Of(kind) == id && forall k: Kind :: k != kind ==> p.Of(k) == Of(k)
    {
      match kind
      case Render => this.(render := id)
      case RenderHops => this.(hops := id)
      case OnKey => this.(key := id)
    }
  }

  const NO_PENDS := Pends(None, None, None)

  /** A reply taken as the answer to its request: from which line, and the first id that the
      latest force_sync before it had left valid. */
  datatype Acceptance = Acceptance(kind: Kind, line: Arrival, cut: int)

  datatype Ids = Ids(issued: map<int, Kind>, consumed: map<int, Acceptance>, abandoned: set<int>, cut: int, clean: bool)

  /** The line carries the id, which is not older than the latest force_sync; a whole line was
      moreover written after the request, hence after that force_sync. */
  ghost predicate Sound(id: int, a: Acceptance, clean: bool) {
    && LineId(a.line.text) == id
    && a.cut <= id
    && (a.line.whole ==> id < a.line.asOf)
    && (clean ==> a.line.whole)
  }

  /** Every id sent is below `next` and has exactly one fate: pending under the kind that sent it,
      consumed by that kind, or abandoned. */
  ghost predicate IdsOk(h: Ids, p: Pends, next: int) {
    && h.cut <= next
    && (forall k: Kind :: p.Of(k).Some? ==> Open(h, p.Of(k).value, k))
    && (forall id :: id in h.issued ==>
                       id < next && (id in h.consumed || id in h.abandoned || p.Of(h.issued[id]) == Some(id)))
    && (forall id :: id in h.consumed ==>
                       && id in h.issued && id !in h.abandoned
                       && h.consumed[id].kind == h.issued[id] && Sound(id, h.consumed[id], h.clean))
    && (forall id :: id in h.abandoned ==> id in h.issued)
  }

  /** Sent by this kind since the latest force_sync, and neither answered nor given up. */
  ghost predicate Open(h: Ids, id: int, kind: Kind) {
    id in h.issued && h.issued[id] == kind && id !in h.consumed && id !in h.abandoned && h.cut <= id
  }

  function Sent(h: Ids, id: int, kind: Kind): Ids {
    h.(issued := h.issued[id := kind])
  }

  function SendFailed(h: Ids, id: int, kind: Kind): Ids {
    h.(issued := h.issued[id := kind], abandoned := h.abandoned + {id})
  }

  function Consumed(h: Ids, id: int, kind: Kind, line: Arrival): Ids {
    h.(consumed := h.consumed[id := Acceptance(kind, line, h.cut)])
  }

  function IdSet(o: Option<int>): set<int> {
    if o.Some? then {o.value} else {}
  }

  function Synced(h: Ids, p: Pends, next: int, clean: bool): Ids {
    h.(abandoned := h.abandoned + IdSet(p.render) + IdSet(p.hops) + IdSet(p.key),
       cut := next, clean := h.clean && clean)
  }

  lemma SentOk(h: Ids, p: Pends, next: int, kind: Kind)
    requires IdsOk(h, p, next) && p.Of(kind).None?
    ensures IdsOk(Sent(h, next, kind), p.With(kind, Some(next)), next + 1)
  {
    hide Sound;
    assert next !in h.issued;
  }

  lemma SendFailedOk(h: Ids, p: Pends, next: int, kind: Kind)
    requires IdsOk(h, p, next)
    ensures IdsOk(SendFailed(h, next, kind), p, next + 1)
  {
    hide Sound;
    assert next !in h.issued;
  }

  lemma ConsumedOk(h: Ids, p: Pends, next: int, kind: Kind, line: Arrival)
    requires IdsOk(h, p, next) && p.Of(kind) == Some(LineId(line.text)) && Honest(line) && (h.clean ==> line.whole)
    ensures IdsOk(Consumed(h, LineId(line.text), kind, line), p.With(kind, None), next)
  {
    hide LineId, OneLine;
    var id := LineId(line.text);
    assert Open(h, id, kind);
    assert Sound(id, Acceptance(kind, line, h.cut), h.clean);
  }

  lemma SyncedOk(h: Ids, p: Pends, next: int, clean: bool)
    requires IdsOk(h, p, next)
    ensures IdsOk(Synced(h, p, next, clean), NO_PENDS, next)
  {
    hide LineId;
    var h' := Synced(h, p, next, clean);
    forall id | id in h'.abandoned
      ensures id in h.issued && id !in h.consumed
    {
      if id !in h.abandoned {
        var k := if id in IdSet(p.render) then Render else if id in IdSet(p.hops) then RenderHops else OnKey;
        assert Open(h, p.Of(k).value, k);
      }
    }
    forall id | id in h.consumed
      ensures Sound(id, h.consumed[id], h'.clean)
    {
      assert Sound(id, h.consumed[id], h.clean);
    }
    assert forall k: Kind :: p.Of(k).Some? ==> p.Of(k).value in h'.abandoned;
  }

  // ----- keys

  /** Every key accepted, in order; the positions sent to the plugin; those dropped from a full
      queue; and those lost to a force_sync or a dead channel. */
  datatype Trail = Trail(accepted: seq<KeyEvent>, sent: seq<int>, overflow: set<int>, swept: set<int>)

  /** The queue is the newest accepted keys.  Each older one was sent, dropped from a full queue
      or swept away, and only one of these; what was sent was sent in order. */
  ghost predicate TrailOk(t: Trail, queue: seq<KeyEvent>, disturbed: bool) {
    && |queue| <= |t.accepted|
    && queue == t.accepted[|t.accepted| - |queue|..]
    && (forall i, j :: 0 <= i < j < |t.sent| ==> t.sent[i] < t.sent[j])
    && (forall i :: 0 <= i < |t.accepted| - |queue| <==> i in t.sent || i in t.overflow || i in t.swept)
    && (forall i :: i in t.overflow ==> i !in t.sent && i !in t.swept)
    && (forall i :: i in t.swept ==> i !in t.sent)
    && (t.swept != {} ==> disturbed)
  }

  function KeyAccepted(t: Trail, e: KeyEvent): Trail {
    t.(accepted := t.accepted + [e])
  }

  function OldestDropped(t: Trail, queue: seq<KeyEvent>): Trail
  {
    t.(overflow := t.overflow + {|t.accepted| - |queue|})
  }

  function KeySent(t: Trail, queue: seq<KeyEvent>): Trail
  {
    t.(sent := t.sent + [|t.accepted| - |queue|])
  }

  function Positions(lo: int, hi: int): (r: set<int>)
    requires lo <= hi
    ensures forall i :: i in r <==> lo <= i < hi
    decreases hi - lo
  {
    if lo == hi then {} else {lo} + Positions(lo + 1, hi)
  }

  function AllSwept(t: Trail, queue: seq<KeyEvent>): Trail
  {
    t.(swept := t.swept + Positions(|t.accepted| - |queue|, |t.accepted|))
  }

  function OneSwept(t: Trail, queue: seq<KeyEvent>): Trail
  {
    t.(swept := t.swept + {|t.accepted| - |queue|})
  }

  lemma KeyAcceptedOk(t: Trail, queue: seq<KeyEvent>, e: KeyEvent, disturbed: bool)
    requires TrailOk(t, queue, disturbed)
    ensures TrailOk(KeyAccepted(t, e), queue + [e], disturbed)
  {
  }

  lemma OldestDroppedOk(t: Trail, queue: seq<KeyEvent>, disturbed: bool)
    requires TrailOk(t, queue, disturbed) && queue != []
    ensures TrailOk(OldestDropped(t, queue), queue[1..], disturbed)
  {
  }

  lemma KeySentOk(t: Trail, queue: seq<KeyEvent>, disturbed: bool)
    requires TrailOk(t, queue, disturbed) && queue != []
    ensures TrailOk(KeySent(t, queue), queue[1..], disturbed)
  {
    var base := |t.accepted| - |queue|;
    forall i | 0 <= i < |t.sent|
      ensures t.sent[i] < base
    {
      assert t.sent[i] in t.sent;
    }
    assert base in KeySent(t, queue).sent;
    assert forall i :: i in KeySent(t, queue).sent <==> i in t.sent || i == base;
  }

  lemma OneSweptOk(t: Trail, queue: seq<KeyEvent>, disturbed: bool)
    requires TrailOk(t, queue, disturbed) && queue != []
    ensures TrailOk(OneSwept(t, queue), queue[1..], true)
  {
  }

  lemma AllSweptOk(t: Trail, queue: seq<KeyEvent>, disturbed: bool)
    requires TrailOk(t, queue, disturbed)
    ensures TrailOk(AllSwept(t, queue), [], true)
  {
  }

  lemma StillDisturbed(t: Trail, queue: seq<KeyEvent>, before: bool, after: bool)
    requires TrailOk(t, queue, before) && (before ==> after)
    ensures TrailOk(t, queue, after)
  {
  }

  // ----- what went out

  datatype Call = Call(id: int, kind: Kind, params: Json)

  /** The requests as bytes on the plugin's standard input. */
  function Outgoing(calls: seq<Call>): string {
    if calls == [] then ""
    else
      var c := calls[|calls| - 1];
      Outgoing(calls[..|calls| - 1]) + Text(Request(c.id, Name(c.kind), c.params)) + "\n"
  }

  function KeyParams(e: KeyEvent): Json {
    Obj(Member("key", Int(e.ch), if e.modal then Member("modal_input", Bool(true), NoMember) else NoMember))
  }

  /** A request as it goes out, written out. */
  lemma RequestWritten(id: int, kind: Kind, params: Json)
    ensures var name := if kind.Render? then "render" else if kind.RenderHops? then "render_hops" else "on_key";
            Text(Request(id, Name(kind), params)) ==
            "{\"jsonrpc\":\"2.0\",\"id\":" + Decimal(id) +
            (",\"method\":\"" + name + ("\",\"params\":" + Text(params) + "}"))
  {
    hide Text, Decimal, Escape, MembersText, Request;
    var m4 := Member("params", params, NoMember);
    var m3 := Member("method", Str(Name(kind)), m4);
    var m2 := Member("id", Int(id), m3);
    PlainNames(kind);
    MemberWritten("params", params, NoMember);
    MemberWritten("method", Str(Name(kind)), m4);
    MemberWritten("id", Int(id), m3);
    MemberWritten("jsonrpc", Str("2.0"), m2);
    Containers(NoElem, Member("jsonrpc", Str("2.0"), m2));
    StringWritten(Name(kind));
    StringWritten("2.0");
    NumberWritten(id);
    RequestIs(id, kind, params);
    JoinEnd(Name(kind), Text(params), MembersText(m4), MembersText(m3));
    JoinAll(Decimal(id), MembersText(m3), MembersText(m2), Name(kind), Text(params));
  }

  lemma RequestIs(id: int, kind: Kind, params: Json)
    ensures Request(id, Name(kind), params) ==
            Obj(Member("jsonrpc", Str("2.0"), Member("id", Int(id),
                Member("method", Str(Name(kind)), Member("params", params, NoMember)))))
  {
  }

  lemma JoinEnd(name: string, p: string, m4: string, m3: string)
    requires m4 == "\"" + "params" + "\":" + p + "" && m3 == "\"" + "method" + "\":" + ("\"" + name + "\"") + ("," + m4)
    ensures "," + m3 + "}" == ",\"method\":\"" + name + ("\",\"params\":" + p + "}")
  {
  }

  lemma JoinAll(d: string, m3: string, m2: string, name: string, p: string)
    requires m2 == "\"" + "id" + "\":" + d + ("," + m3)
    requires "," + m3 + "}" == ",\"method\":\"" + name + ("\",\"params\":" + p + "}")
    ensures "{" + ("\"" + "jsonrpc" + "\":" + ("\"" + "2.0" + "\"") + ("," + m2)) + "}" ==
            "{\"jsonrpc\":\"2.0\",\"id\":" + d + (",\"method\":\"" + name + ("\",\"params\":" + p + "}"))
  {
    var tail := "," + m3 + "}";
    assert ("," + m2) + "}" == ",\"id\":" + d + tail;
  }

  lemma PlainNames(kind: Kind)
    ensures Escape("jsonrpc") == "jsonrpc" && Escape("2.0") == "2.0" && Escape("id") == "id"
    ensures Escape("method") == "method" && Escape("params") == "params" && Escape(Name(kind)) == Name(kind)
  {
    hide Escape;
    EscapeFixesPlain("jsonrpc");
    EscapeFixesPlain("2.0");
    EscapeFixesPlain("id");
    EscapeFixesPlain("method");
    EscapeFixesPlain("params");
    EscapeFixesPlain(Name(kind));
  }

  lemma MemberWritten(key: string, v: Json, rest: Members)
    ensures MembersText(Member(key, v, rest)) ==
            "\"" + Escape(key) + "\":" + Text(v) + if rest.NoMember? then "" else "," + MembersText(rest)
  {
    hide Text, Escape;
  }

  lemma StringWritten(x: string)
    ensures Text(Str(x)) == "\"" + Escape(x) + "\""
  {
    hide Escape;
  }

  lemma NumberWritten(n: int)
    ensures Text(Int(n)) == Decimal(n)
  {
    hide Decimal;
  }

  /** The parameters of a key. */
  lemma KeyWritten(e: KeyEvent)
    ensures Text(KeyParams(e)) == "{\"key\":" + Decimal(e.ch) + (if e.modal then ",\"modal_input\":true" else "") + "}"
  {
    hide Text, Decimal, Escape, MembersText;
    var more := if e.modal then Member("modal_input", Bool(true), NoMember) else NoMember;
    KeyNames();
    Literals();
    MemberWritten("key", Int(e.ch), more);
    MemberWritten("modal_input", Bool(true), NoMember);
    Containers(NoElem, Member("key", Int(e.ch), more));
    NumberWritten(e.ch);
  }

  lemma KeyNames()
    ensures Escape("key") == "key" && Escape("modal_input") == "modal_input"
  {
    hide Escape;
    EscapeFixesPlain("key");
    EscapeFixesPlain("modal_input");
  }

  /** The parameters of the on_key requests among these. */
  function KeyCalls(calls: seq<Call>): seq<Json> {
    if calls == [] then []
    else
      var c := calls[|calls| - 1];
      KeyCalls(calls[..|calls| - 1]) + if c.kind.OnKey? then [c.params] else []
  }

  /** The bytes written are the requests; each is recorded under its kind; and the on_key requests
      carry the keys of the trail's sent positions. */
  ghost predicate CallsOk(calls: seq<Call>, outgoing: string, dead: bool, h: Ids, t: Trail) {
    && (dead || outgoing == Outgoing(calls))
    && (forall i :: 0 <= i < |calls| ==> calls[i].id in h.issued && h.issued[calls[i].id] == calls[i].kind)
    && |KeyCalls(calls)| == |t.sent|
    && (forall i :: 0 <= i < |t.sent| ==>
                      0 <= t.sent[i] < |t.accepted| && KeyCalls(calls)[i] == KeyParams(t.accepted[t.sent[i]]))
  }

  lemma CallsSnoc(calls: seq<Call>, c: Call)
    ensures Outgoing(calls + [c]) == Outgoing(calls) + Text(Request(c.id, Name(c.kind), c.params)) + "\n"
    ensures KeyCalls(calls + [c]) == KeyCalls(calls) + if c.kind.OnKey? then [c.params] else []
  {
    hide Text, Request;
    assert (calls + [c])[..|calls|] == calls;
  }

  /** A request went out that is not about a key. */
  lemma CallMade(calls: seq<Call>, outgoing: string, h: Ids, t: Trail, id: int, kind: Kind, params: Json)
    requires CallsOk(calls, outgoing, false, h, t) && !kind.OnKey? && id !in h.issued
    ensures CallsOk(calls + [Call(id, kind, params)], outgoing + Text(Request(id, Name(kind), params)) + "\n",
                    false, Sent(h, id, kind), t)
  {
    CallsSnoc(calls, Call(id, kind, params));
    hide Outgoing, KeyCalls, Text, Request, KeyParams;
  }

  lemma KeyCallMade(calls: seq<Call>, outgoing: string, h: Ids, t: Trail, id: int, queue: seq<KeyEvent>, e: KeyEvent)
    requires CallsOk(calls, outgoing, false, h, t) && id !in h.issued
    requires |queue| <= |t.accepted| && queue != [] && e == t.accepted[|t.accepted| - |queue|]
    ensures CallsOk(calls + [Call(id, OnKey, KeyParams(e))],
                    outgoing + Text(Request(id, "on_key", KeyParams(e))) + "\n",
                    false, Sent(h, id, OnKey), KeySent(t, queue))
  {
    CallsSnoc(calls, Call(id, OnKey, KeyParams(e)));
    hide Outgoing, KeyCalls, Text, Request, KeyParams;
  }

  /** Whatever else happens to ids and keys leaves the requests made as they are. */
  lemma CallsKept(calls: seq<Call>, outgoing: string, dead: bool, h: Ids, t: Trail,
                  outgoing': string, dead': bool, h': Ids, t': Trail)
    requires CallsOk(calls, outgoing, dead, h, t)
    requires t.sent == t'.sent && t.accepted <= t'.accepted
    requires forall id :: id in h.issued ==> id in h'.issued && h'.issued[id] == h.issued[id]
    requires dead' || (!dead && outgoing' == outgoing)
    ensures CallsOk(calls, outgoing', dead', h', t')
  {
    hide Outgoing, KeyCalls, KeyParams;
  }

  // ----- the whole entry

  /** What has happened so far: the lines under way, the fates of ids and keys, the requests made,
      and whether there was a force_sync. */
  datatype Past = Past(wire: seq<Arrival>, ids: Ids, trail: Trail, calls: seq<Call>, synced: bool)

  /** An entry as a value: outstanding requests, the next id, the unread bytes, the bytes written
      (while the channel lives), and the waiting keys. */
  datatype Host = Host(pends: Pends, next: int, bytes: string, outgoing: string, dead: bool, queue: seq<KeyEvent>,
                       past: Past)

  ghost predicate Good(s: Host) {
    && WireOk(s.past.wire, s.bytes, s.next, s.past.ids.clean)
    && IdsOk(s.past.ids, s.pends, s.next)
    && TrailOk(s.past.trail, s.queue, s.past.synced || s.dead)
    && CallsOk(s.past.calls, s.outgoing, s.dead, s.past.ids, s.past.trail)
  }

  const NO_PAST := Past([], Ids(map[], map[], {}, 0, true), Trail([], [], {}, {}), [], false)

  function Fresh(firstId: int): Host {
    Host(NO_PENDS, firstId, "", "", false, [], NO_PAST.(ids := Ids(map[], map[], {}, firstId, true)))
  }

  lemma FreshGood(firstId: int)
    ensures Good(Fresh(firstId))
  {
  }

  /** The plugin writes a line. */
  function Said(s: Host, text: string): Host {
    s.(bytes := s.bytes + (text + "\n"), past := s.past.(wire := s.past.wire + [Arrival(text, s.next, true)]))
  }

  lemma SaidGood(s: Host, text: string)
    requires Good(s) && Honest(Arrival(text, s.next, true))
    ensures Good(Said(s, text))
  {
    hide IdsOk, TrailOk, CallsOk, Honest;
    Arrives(s.past.wire, Arrival(text, s.next, true), s.bytes, "", s.next, s.past.ids.clean);
    assert s.bytes + "" == s.bytes && s.bytes + ("" + text + "\n") == s.bytes + (text + "\n");
  }

  function RequestOut(s: Host, kind: Kind, params: Json): Host {
    s.(pends := s.pends.With(kind, Some(s.next)), next := s.next + 1,
       outgoing := s.outgoing + Text(Request(s.next, Name(kind), params)) + "\n",
       past := s.past.(ids := Sent(s.past.ids, s.next, kind), calls := s.past.calls + [Call(s.next, kind, params)]))
  }

  /** The channel breaks while a request goes out. */
  function RequestLost(s: Host, kind: Kind): Host {
    s.(next := s.next + 1, dead := true, outgoing := "", past := s.past.(ids := SendFailed(s.past.ids, s.next, kind)))
  }

  /** The oldest waiting key goes out. */
  function KeyOut(s: Host): Host
    requires s.queue != []
  {
    var o := RequestOut(s, OnKey, KeyParams(s.queue[0]));
    o.(queue := s.queue[1..], past := o.past.(trail := KeySent(s.past.trail, s.queue)))
  }

  function KeyLost(s: Host): Host
    requires s.queue != []
  {
    var o := RequestLost(s, OnKey);
    o.(queue := s.queue[1..], past := o.past.(trail := OneSwept(s.past.trail, s.queue)))
  }

  /** plugin_send_next_key, when the write would come out as `ok` says. */
  function NextKey(s: Host, ok: bool): Host {
    if s.pends.key.Some? || s.dead || s.queue == [] then s else if ok then KeyOut(s) else KeyLost(s)
  }

  lemma NextIsNew(h: Ids, p: Pends, next: int)
    requires IdsOk(h, p, next)
    ensures next !in h.issued
  {
    hide Sound;
  }

  lemma QueueIsNewest(t: Trail, queue: seq<KeyEvent>, disturbed: bool)
    requires TrailOk(t, queue, disturbed)
    ensures |queue| <= |t.accepted|
    ensures queue != [] ==> queue[0] == t.accepted[|t.accepted| - |queue|]
  {
  }

  lemma RequestOutGood(s: Host, kind: Kind, params: Json)
    requires Good(s) && !s.dead && s.pends.Of(kind).None? && !kind.OnKey?
    ensures Good(RequestOut(s, kind, params))
  {
    hide IdsOk, TrailOk, CallsOk, WireOk, Text, Request, Sent;
    NextIsNew(s.past.ids, s.pends, s.next);
    SentOk(s.past.ids, s.pends, s.next, kind);
    SentKeeps(s.past.ids, s.next, kind);
    CallMade(s.past.calls, s.outgoing, s.past.ids, s.past.trail, s.next, kind, params);
    Later(s.past.wire, s.bytes, s.next, s.past.ids.clean);
  }

  lemma SentKeeps(h: Ids, id: int, kind: Kind)
    ensures Sent(h, id, kind).clean == h.clean && SendFailed(h, id, kind).clean == h.clean
  {
  }

  lemma RequestLostGood(s: Host, kind: Kind)
    requires Good(s)
    ensures Good(RequestLost(s, kind))
  {
    hide TrailOk, CallsOk, WireOk, Sound;
    SendFailedOk(s.past.ids, s.pends, s.next, kind);
    NextIsNew(s.past.ids, s.pends, s.next);
    CallsKept(s.past.calls, s.outgoing, s.dead, s.past.ids, s.past.trail, "", true,
              SendFailed(s.past.ids, s.next, kind), s.past.trail);
    StillDisturbed(s.past.trail, s.queue, s.past.synced || s.dead, true);
    Later(s.past.wire, s.bytes, s.next, s.past.ids.clean);
  }

  lemma KeyOutGood(s: Host)
    requires Good(s) && !s.dead && s.pends.key.None? && s.queue != []
    ensures Good(KeyOut(s))
  {
    hide IdsOk, TrailOk, CallsOk, WireOk, Text, Request, Sent, KeySent, KeyParams;
    NextIsNew(s.past.ids, s.pends, s.next);
    QueueIsNewest(s.past.trail, s.queue, s.past.synced || s.dead);
    SentOk(s.past.ids, s.pends, s.next, OnKey);
    SentKeeps(s.past.ids, s.next, OnKey);
    KeySentOk(s.past.trail, s.queue, s.past.synced || s.dead);
    KeyCallMade(s.past.calls, s.outgoing, s.past.ids, s.past.trail, s.next, s.queue, s.queue[0]);
    Later(s.past.wire, s.bytes, s.next, s.past.ids.clean);
  }

  lemma KeyLostGood(s: Host)
    requires Good(s) && s.queue != []
    ensures Good(KeyLost(s))
  {
    hide IdsOk, CallsOk, WireOk, TrailOk;
    RequestLostGood(s, OnKey);
    QueueIsNewest(s.past.trail, s.queue, s.past.synced || s.dead);
    OneSweptOk(s.past.trail, s.queue, s.past.synced || s.dead);
    var h := SendFailed(s.past.ids, s.next, OnKey);
    CallsKept(s.past.calls, "", true, h, s.past.trail, "", true, h, OneSwept(s.past.trail, s.queue));
  }

  lemma NextKeyGood(s: Host, ok: bool)
    requires Good(s)
    ensures Good(NextKey(s, ok))
  {
    hide Good, KeyOut, KeyLost;
    if !(s.pends.key.Some? || s.dead || s.queue == []) {
      if ok {
        KeyOutGood(s);
      } else {
        KeyLostGood(s);
      }
    }
  }

  /** A key is accepted; a full queue first loses its oldest. */
  function KeyIn(s: Host, e: KeyEvent): Host {
    var full := |s.queue| == CAPACITY;
    var t := if full then OldestDropped(s.past.trail, s.queue) else s.past.trail;
    s.(queue := (if full then s.queue[1..] else s.queue) + [e], past := s.past.(trail := KeyAccepted(t, e)))
  }

  lemma KeyInGood(s: Host, e: KeyEvent)
    requires Good(s)
    ensures Good(KeyIn(s, e))
  {
    hide IdsOk, CallsOk, WireOk, TrailOk;
    var disturbed := s.past.synced || s.dead;
    QueueIsNewest(s.past.trail, s.queue, disturbed);
    var t, q := s.past.trail, s.queue;
    if |q| == CAPACITY {
      OldestDroppedOk(t, q, disturbed);
      t, q := OldestDropped(t, q), q[1..];
    }
    KeyAcceptedOk(t, q, e, disturbed);
    CallsKept(s.past.calls, s.outgoing, s.dead, s.past.ids, s.past.trail, s.outgoing, s.dead, s.past.ids,
              KeyAccepted(t, e));
  }

  /** The channel turns out to be dead while reading. */
  function Broke(s: Host): Host {
    s.(dead := true, outgoing := "")
  }

  lemma BrokeGood(s: Host)
    requires Good(s)
    ensures Good(Broke(s))
  {
    hide IdsOk, CallsOk, WireOk, TrailOk;
    StillDisturbed(s.past.trail, s.queue, s.past.synced || s.dead, true);
    CallsKept(s.past.calls, s.outgoing, s.dead, s.past.ids, s.past.trail, "", true, s.past.ids, s.past.trail);
  }

  /** The first line under way is read. */
  function LineRead(s: Host): Host
    requires s.past.wire != []
  {
    s.(bytes := Wire(s.past.wire[1..]), past := s.past.(wire := s.past.wire[1..]))
  }

  lemma LineReadGood(s: Host, text: string, rest: string)
    requires Good(s) && s.bytes == text + "\n" + rest && OneLine(text)
    ensures s.past.wire != [] && s.past.wire[0].text == text && LineRead(s).bytes == rest && Good(LineRead(s))
    ensures Honest(s.past.wire[0]) && (s.past.ids.clean ==> s.past.wire[0].whole)
  {
    hide IdsOk, CallsOk, TrailOk, Honest, Wire;
    Delivered(s.past.wire, s.bytes, s.next, s.past.ids.clean, text, rest);
  }

  /** A line is taken as the reply to the outstanding request of this kind. */
  function Replied(s: Host, kind: Kind, line: Arrival): Host {
    s.(pends := s.pends.With(kind, None), past := s.past.(ids := Consumed(s.past.ids, LineId(line.text), kind, line)))
  }

  lemma RepliedGood(s: Host, kind: Kind, line: Arrival)
    requires Good(s) && s.pends.Of(kind) == Some(LineId(line.text)) && Honest(line) && (s.past.ids.clean ==> line.whole)
    ensures Good(Replied(s, kind, line))
  {
    hide IdsOk, CallsOk, TrailOk, WireOk, LineId, Honest;
    ConsumedOk(s.past.ids, s.pends, s.next, kind, line);
    CallsKept(s.past.calls, s.outgoing, s.dead, s.past.ids, s.past.trail, s.outgoing, s.dead,
              Consumed(s.past.ids, LineId(line.text), kind, line), s.past.trail);
  }

  /** A force_sync that leaves `left` of the unread bytes: everything outstanding is given up. */
  function Reset(s: Host, left: string): Host {
    var d := if |left| <= |s.bytes| then |s.bytes| - |left| else 0;
    var w := After(s.past.wire, d);
    var clean := d == 0 || s.bytes[d - 1] == '\n';
    s.(pends := NO_PENDS, bytes := left, queue := [],
       past := s.past.(wire := w, ids := Synced(s.past.ids, s.pends, s.next, clean),
                       trail := AllSwept(s.past.trail, s.queue), synced := true))
  }

  lemma SweepKeeps(h: Ids, p: Pends, next: int, clean: bool, t: Trail, queue: seq<KeyEvent>)
    ensures Synced(h, p, next, clean).issued == h.issued && Synced(h, p, next, clean).clean == (h.clean && clean)
    ensures AllSwept(t, queue).sent == t.sent && AllSwept(t, queue).accepted == t.accepted
  {
  }

  lemma ResetGood(s: Host, rx: string, pipe: string, left: string)
    requires Good(s) && s.bytes == rx + pipe && |left| <= |pipe| && left == pipe[|pipe| - |left|..]
    ensures Good(Reset(s, left))
  {
    hide IdsOk, CallsOk, TrailOk, WireOk, After, Wire, Synced, AllSwept;
    var disturbed := s.past.synced || s.dead;
    Discarded(s.past.wire, rx, pipe, left, s.next, s.past.ids.clean);
    QueueIsNewest(s.past.trail, s.queue, disturbed);
    AllSweptOk(s.past.trail, s.queue, disturbed);
    var d := |s.bytes| - |left|;
    var clean := d == 0 || s.bytes[d - 1] == '\n';
    SweepKeeps(s.past.ids, s.pends, s.next, clean, s.past.trail, s.queue);
    SyncedOk(s.past.ids, s.pends, s.next, clean);
    CallsKept(s.past.calls, s.outgoing, s.dead, s.past.ids, s.past.trail, s.outgoing, s.dead,
              Synced(s.past.ids, s.pends, s.next, clean), AllSwept(s.past.trail, s.queue));
  }
}
