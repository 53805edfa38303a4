/**
 The two walkers over IPv6 extension headers: parse_ipv6_original_icmp6 of the gatekeeper
 (src/io/gatekeeper.c) and ipv6_transport_offset of the sniffer plugin
 (plugins/sniffer/src/main.rs), against one recursive reading of the chain (section 4 of
 RFC 8200, section 2.2 of RFC 4302).
 */
module Ipv6Chain {
  import opened Bits
  import opened Options
  import opened Texts


  const HOP_BY_HOP: Byte := 0
  const ROUTING: Byte := 43
  const FRAGMENT: Byte := 44
  const AUTH: Byte := 51
  const ICMPV6: Byte := 58
  const DEST_OPTIONS: Byte := 60
  const ECHO_REQUEST: Byte := 128
  const IP6_HEADER: nat := 40
  const ICMP6_HEADER: nat := 8

  /** Length in octets of an options or routing header, `(len + 1) * 8`. */
  function Units8(len: Byte): nat {
    var n: nat := len;
    (n + 1) * 8
  }

  /** Length in octets of an authentication header, `(len + 2) * 4`. */
  function Units4(len: Byte): nat {
    var n: nat := len;
    (n + 2) * 4
  }

  /** Where the chain leaves the extension headers: the upper-layer protocol and its offset. */
  function Transport(data: seq<Byte>, next: Byte, off: nat): (r: Option<(Byte, nat)>)
    ensures r.Some? && off <= |data| ==> off <= r.value.1 <= |data|
    decreases |data| - off
  {
    if next == HOP_BY_HOP || next == ROUTING || next == DEST_OPTIONS then
      if |data| < off + 2 || |data| < off + Units8(data[off + 1]) then None
      else Transport(data, data[off], off + Units8(data[off + 1]))
    else if next == FRAGMENT then
      if |data| < off + 8 then None
      else Transport(data, data[off], off + 8)
    else if next == AUTH then
      if |data| < off + 2 || |data| < off + Units4(data[off + 1]) then None
      else Transport(data, data[off], off + Units4(data[off + 1]))
    else Some((next, off))
  }

  lemma TransportStep(data: seq<Byte>, next: Byte, off: nat)
    requires off <= |data|
    ensures var t := Transport(data, next, off);
            if next == HOP_BY_HOP || next == ROUTING || next == DEST_OPTIONS then
              if |data| < off + 2 || |data| < off + Units8(data[off + 1]) then t.None?
              else t == Transport(data, data[off], off + Units8(data[off + 1]))
            else if next == FRAGMENT then
              if |data| < off + 8 then t.None? else t == Transport(data, data[off], off + 8)
            else if next == AUTH then
              if |data| < off + 2 || |data| < off + Units4(data[off + 1]) then t.None?
              else t == Transport(data, data[off], off + Units4(data[off + 1]))
            else t == Some((next, off))
  {
  }

  function Be16(hi: Byte, lo: Byte): nat {
    hi * 256 + lo
  }

  /** The echo request a packet slice quotes, if its chain ends in one. */
  function QuotedEcho(data: seq<Byte>): Option<(nat, nat)>
    requires |data| >= IP6_HEADER
  {
    match Transport(data, data[6], IP6_HEADER)
    case None => None
    case Some((proto, off)) =>
      if proto == ICMPV6 && off + ICMP6_HEADER <= |data| && data[off] == ECHO_REQUEST then
        Some((Be16(data[off + 4], data[off + 5]), Be16(data[off + 6], data[off + 7])))
      else None
  }

  /** The sniffer's walker. */
  method TransportOffset(data: seq<Byte>, first: Byte) returns (r: Option<(Byte, nat)>)
    ensures r == Transport(data, first, IP6_HEADER)
    ensures r.Some? && |data| >= IP6_HEADER ==> r.value.1 <= |data|
  {
    var next, offset := first, IP6_HEADER;
    while true
      invariant Transport(data, next, offset) == Transport(data, first, IP6_HEADER)
      invariant |data| >= IP6_HEADER ==> offset <= |data|
      decreases |data| - offset
    {
      if next == 0 || next == 43 || next == 60 {
        if |data| < offset + 2 {
          return None;
        }
        next := data[offset];
        var hdrLen := Units8(data[offset + 1]);
        if hdrLen == 0 || |data| < offset + hdrLen {
          return None;
        }
        offset := offset + hdrLen;
      } else if next == 44 {
        if |data| < offset + 8 {
          return None;
        }
        next := data[offset];
        offset := offset + 8;
      } else if next == 51 {
        if |data| < offset + 2 {
          return None;
        }
        next := data[offset];
        var hdrLen := Units4(data[offset + 1]);
        if hdrLen == 0 || |data| < offset + hdrLen {
          return None;
        }
        offset := offset + hdrLen;
      } else {
        return Some((next, offset));
      }
    }
  }

  /** Where the quoted packet ends: at its payload length, or where the buffer does. */
  function PacketEnd(buf: seq<Byte>, n: nat, ip6Off: nat): (end: nat)
    requires ip6Off + IP6_HEADER <= n <= |buf|
    ensures ip6Off + IP6_HEADER <= end <= n
  {
    var declared := ip6Off + IP6_HEADER + Be16(buf[ip6Off + 4], buf[ip6Off + 5]);
    if declared > n then n else declared
  }

  lemma Concludes(data: seq<Byte>, next: Byte, off: nat)
    requires IP6_HEADER <= off <= |data| && Transport(data, next, off) == Transport(data, data[6], IP6_HEADER)
    ensures Transport(data, next, off).None? ==> QuotedEcho(data).None?
    ensures Transport(data, next, off) == Some((next, off)) ==>
              QuotedEcho(data) == if next == ICMPV6 && off + ICMP6_HEADER <= |data| && data[off] == ECHO_REQUEST
                                  then Some((Be16(data[off + 4], data[off + 5]), Be16(data[off + 6], data[off + 7])))
                                  else None
  {
    hide Transport;
  }

  /** The walk of the packet in buf[lo..end] has come to a header of kind `next` at `off`. */
  ghost predicate Walking(buf: seq<Byte>, lo: nat, end: nat, next: Byte, off: nat) {
    && lo + IP6_HEADER <= off <= end <= |buf|
    && var data := buf[lo..end]; Transport(data, next, off - lo) == Transport(data, data[6], IP6_HEADER)
  }

  ghost function Answer(buf: seq<Byte>, lo: nat, end: nat): Option<(nat, nat)> {
    if lo + IP6_HEADER <= end <= |buf| then QuotedEcho(buf[lo..end]) else None
  }

  lemma WalkStart(buf: seq<Byte>, lo: nat, end: nat)
    requires lo + IP6_HEADER <= end <= |buf|
    ensures Walking(buf, lo, end, buf[lo + 6], lo + IP6_HEADER) && Answer(buf, lo, end) == QuotedEcho(buf[lo..end])
  {
    hide Transport;
    assert buf[lo..end][6] == buf[lo + 6];
  }

  /** An extension header of n bytes is passed; one that does not fit ends the walk. */
  lemma WalkOn(buf: seq<Byte>, lo: nat, end: nat, next: Byte, off: nat)
    requires Walking(buf, lo, end, next, off)
    ensures var known := next == HOP_BY_HOP || next == ROUTING || next == DEST_OPTIONS;
            && (known || next == AUTH ==> (off + 2 > end ==> Answer(buf, lo, end).None?))
            && (known && off + 2 <= end ==> Passed(buf, lo, end, off, Units8(buf[off + 1])))
            && (next == AUTH && off + 2 <= end ==> Passed(buf, lo, end, off, Units4(buf[off + 1])))
            && (next == FRAGMENT && off == end ==> Answer(buf, lo, end).None?)
            && (next == FRAGMENT && off < end ==> Passed(buf, lo, end, off, 8))
  {
    var data := buf[lo..end];
    TransportStep(data, next, off - lo);
    Concludes(data, next, off - lo);
    assert off < end ==> data[off - lo] == buf[off];
    assert off + 1 < end ==> data[off - lo + 1] == buf[off + 1];
    hide Transport, QuotedEcho;
  }

  ghost predicate Passed(buf: seq<Byte>, lo: nat, end: nat, off: nat, n: nat)
    requires off < end <= |buf|
  {
    && n > 0
    && (off + n > end ==> Answer(buf, lo, end).None?)
    && (off + n <= end ==> Walking(buf, lo, end, buf[off], off + n))
  }

  lemma WalkOver(buf: seq<Byte>, lo: nat, end: nat, next: Byte, off: nat)
    requires Walking(buf, lo, end, next, off)
    requires next != HOP_BY_HOP && next != ROUTING && next != DEST_OPTIONS && next != FRAGMENT && next != AUTH
    ensures Answer(buf, lo, end) ==
            if next == ICMPV6 && off + ICMP6_HEADER <= end && buf[off] == ECHO_REQUEST
            then Some((Be16(buf[off + 4], buf[off + 5]), Be16(buf[off + 6], buf[off + 7])))
            else None
  {
    var data := buf[lo..end];
    TransportStep(data, next, off - lo);
    Concludes(data, next, off - lo);
    hide Transport, QuotedEcho;
  }

  // ----- well-formed chains

  /** An extension header without its next-header byte. */
  datatype Ext =
    | Options(kind: Byte, len8: Byte, body: seq<Byte>)  // len8 counts 8-octet units after the first
    | Fragment(reserved: Byte, body: seq<Byte>)
    | Auth(len4: Byte, body: seq<Byte>)                 // len4 counts 4-octet units minus two

  /** A chain of extension headers in front of a message of some other protocol. */
  datatype Chain = Message(proto: Byte) | Then(ext: Ext, rest: Chain)

  predicate WellFormed(e: Ext) {
    match e
    case Options(kind, len8, body) =>
      (kind == 0 || kind == 43 || kind == 60) && 2 + |body| == 8 * len8 + 8
    case Fragment(_, body) => 2 + |body| == 8
    case Auth(len4, body) => 2 + |body| == 4 * len4 + 8
  }

  predicate WellFormedChain(c: Chain) {
    match c
    case Message(proto) => NoExtension(proto)
    case Then(ext, rest) => WellFormed(ext) && WellFormedChain(rest)
  }

  /** The protocol at its end. */
  function Last(c: Chain): Byte {
    if c.Message? then c.proto else Last(c.rest)
  }

  function Kind(e: Ext): Byte {
    match e
    case Options(kind, _, _) => kind
    case Fragment(_, _) => 44
    case Auth(_, _) => 51
  }

  function FirstKind(c: Chain): Byte {
    if c.Message? then c.proto else Kind(c.ext)
  }

  function EncodeExt(e: Ext, next: Byte): seq<Byte> {
    match e
    case Options(_, len8, body) => [next, len8] + body
    case Fragment(reserved, body) => [next, reserved] + body
    case Auth(len4, body) => [next, len4] + body
  }

  function Encode(c: Chain): seq<Byte> {
    if c.Message? then [] else EncodeExt(c.ext, FirstKind(c.rest)) + Encode(c.rest)
  }

  lemma ExtStep(data: seq<Byte>, p: nat, e: Ext, next: Byte)
    requires WellFormed(e) && At(data, p, EncodeExt(e, next))
    ensures Transport(data, Kind(e), p) == Transport(data, next, p + |EncodeExt(e, next)|)
  {
    var bytes := EncodeExt(e, next);
    assert data[p + 0] == bytes[0] && data[p + 1] == bytes[1];
  }

  /** Any chain of extension headers, of any length and sizes, is walked to its end. */
  lemma {:induction false} WalkEncoded(data: seq<Byte>, p: nat, c: Chain)
    requires At(data, p, Encode(c)) && WellFormedChain(c)
    ensures Transport(data, FirstKind(c), p) == Some((Last(c), p + |Encode(c)|))
    decreases c
  {
    hide Transport, Encode, EncodeExt, At, Kind, FirstKind, Last, WellFormed, WellFormedChain, NoExtension;
    EncodeThen(c);
    ChainThen(c);
    if c.Then? {
      var first := EncodeExt(c.ext, FirstKind(c.rest));
      AtSplit(data, p, first, Encode(c.rest));
      ExtStep(data, p, c.ext, FirstKind(c.rest));
      WalkEncoded(data, p + |first|, c.rest);
    } else {
      WalkEnds(data, p, c.proto);
    }
  }

  lemma EncodeThen(c: Chain)
    ensures if c.Then? then
              && Encode(c) == EncodeExt(c.ext, FirstKind(c.rest)) + Encode(c.rest)
              && FirstKind(c) == Kind(c.ext)
              && Last(c) == Last(c.rest)
            else Encode(c) == [] && FirstKind(c) == c.proto == Last(c)
  {
  }

  lemma ChainThen(c: Chain)
    ensures WellFormedChain(c) && c.Then? ==> WellFormed(c.ext) && WellFormedChain(c.rest)
    ensures WellFormedChain(c) && c.Message? ==> NoExtension(c.proto)
  {
  }

  predicate NoExtension(proto: Byte) {
    proto != 0 && proto != 43 && proto != 44 && proto != 51 && proto != 60
  }

  lemma WalkEnds(data: seq<Byte>, p: nat, proto: Byte)
    requires NoExtension(proto)
    ensures Transport(data, proto, p) == Some((proto, p))
  {
  }

  /** The identifier and sequence number of an echo request. */
  function Identity(echo: seq<Byte>): (nat, nat)
    requires |echo| == 8
  {
    var a: nat, b: nat, c: nat, d: nat := echo[4], echo[5], echo[6], echo[7];
    (a * 256 + b, c * 256 + d)
  }

  /** A quoted packet whose chain ends in an echo request, followed by anything and possibly cut
      short after the echo header, yields the identifier and sequence number it was built with. */
  lemma EncodedEchoIsFound(data: seq<Byte>, c: Chain, echo: seq<Byte>)
    requires |data| >= IP6_HEADER && data[6] == FirstKind(c) && WellFormedChain(c) && Last(c) == 58
    requires |echo| == 8 && echo[0] == 128
    requires At(data, 40, Encode(c) + echo)
    ensures QuotedEcho(data) == Some(Identity(echo))
  {
    hide Transport, Encode;
    AtSplit(data, IP6_HEADER, Encode(c), echo);
    WalkEncoded(data, IP6_HEADER, c);
  }

  // ----- quoted packets

  /** At ip6Off of the buffer a packet is quoted, whole up to the end of its echo request's header. */
  ghost predicate Quotes(buf: seq<Byte>, n: nat, ip6Off: nat, c: Chain, echo: seq<Byte>) {
    && n <= |buf| && ip6Off + 40 + |Encode(c)| + 8 <= n
    && WellFormedChain(c) && Last(c) == 58 && |echo| == 8 && echo[0] == 128
    && buf[ip6Off + 6] == FirstKind(c) && At(buf, ip6Off + 40, Encode(c) + echo)
  }

  /** The walk of a packet that is cut before the end of its echo header fails, or stops where the
      header does not fit. */
  lemma {:induction false} WalkCut(data: seq<Byte>, full: seq<Byte>, p: nat, c: Chain)
    requires p <= |data| < p + |Encode(c)| + 8 && data <= full && At(full, p, Encode(c)) && WellFormedChain(c)
    ensures match Transport(data, FirstKind(c), p)
            case None => true
            case Some((_, off)) => off + 8 > |data|
    decreases c
  {
    hide Transport, Encode, EncodeExt, At, Kind, FirstKind, Last, WellFormed, WellFormedChain, NoExtension;
    EncodeThen(c);
    ChainThen(c);
    if c.Then? {
      var first := EncodeExt(c.ext, FirstKind(c.rest));
      AtSplit(full, p, first, Encode(c.rest));
      if p + |first| <= |data| {
        AtPrefix(data, full, p, first);
        ExtStep(data, p, c.ext, FirstKind(c.rest));
        WalkCut(data, full, p + |first|, c.rest);
      } else {
        ExtCut(data, full, p, c.ext, FirstKind(c.rest));
      }
    } else {
      WalkEnds(data, p, c.proto);
    }
  }

  lemma AtPrefix(data: seq<Byte>, full: seq<Byte>, p: nat, t: seq<Byte>)
    requires data <= full && At(full, p, t) && p + |t| <= |data|
    ensures At(data, p, t)
  {
  }

  /** A header that does not fit ends the walk. */
  lemma ExtCut(data: seq<Byte>, full: seq<Byte>, p: nat, e: Ext, next: Byte)
    requires WellFormed(e) && data <= full && At(full, p, EncodeExt(e, next))
    requires p <= |data| < p + |EncodeExt(e, next)|
    ensures Transport(data, Kind(e), p).None?
  {
    hide Transport;
    var bytes := EncodeExt(e, next);
    assert full[p + 0] == bytes[0] && full[p + 1] == bytes[1];
    TransportStep(data, Kind(e), p);
  }

  lemma QuotedFound(buf: seq<Byte>, n: nat, ip6Off: nat, c: Chain, echo: seq<Byte>)
    requires Quotes(buf, n, ip6Off, c, echo)
    ensures QuotedEcho(buf[ip6Off..PacketEnd(buf, n, ip6Off)]) ==
            if buf[ip6Off + 4] * 256 + buf[ip6Off + 5] >= |Encode(c)| + 8 then Some(Identity(echo)) else None
  {
    hide Transport, Encode, QuotedEcho, WellFormedChain, FirstKind, At, Identity;
    var data, full := buf[ip6Off..PacketEnd(buf, n, ip6Off)], buf[ip6Off..n];
    var need := 40 + |Encode(c)| + 8;
    ShiftAt(buf, ip6Off, n, Encode(c) + echo);
    if |data| >= need {
      AtPrefix(data, full, 40, Encode(c) + echo);
      EncodedEchoIsFound(data, c, echo);
    } else {
      AtSplit(full, 40, Encode(c), echo);
      WalkCut(data, full, 40, c);
      CutIsNothing(data);
    }
  }

  lemma ShiftAt(buf: seq<Byte>, lo: nat, n: nat, t: seq<Byte>)
    requires lo + 40 + |t| <= n <= |buf| && At(buf, lo + 40, t)
    ensures At(buf[lo..n], 40, t)
  {
    forall k | 0 <= k < |t|
      ensures buf[lo..n][40 + k] == t[k]
    {
      assert buf[lo + 40 + k] == t[k];
    }
  }

  lemma CutIsNothing(data: seq<Byte>)
    requires |data| >= IP6_HEADER
    requires match Transport(data, data[6], IP6_HEADER)
             case None => true
             case Some((_, off)) => off + ICMP6_HEADER > |data|
    ensures QuotedEcho(data) == None
  {
    hide Transport;
  }

  lemma QuotedAll(buf: seq<Byte>, n: nat, ip6Off: nat)
    requires n <= |buf| && n >= ip6Off + IP6_HEADER
    ensures forall c, echo :: Quotes(buf, n, ip6Off, c, echo) ==>
                                QuotedEcho(buf[ip6Off..PacketEnd(buf, n, ip6Off)]) ==
                                if buf[ip6Off + 4] * 256 + buf[ip6Off + 5] >= |Encode(c)| + 8 then Some(Identity(echo))
                                else None
  {
    hide QuotedEcho, PacketEnd, Encode, Identity, At, WellFormedChain, FirstKind;
    forall c, echo | Quotes(buf, n, ip6Off, c, echo)
      ensures QuotedEcho(buf[ip6Off..PacketEnd(buf, n, ip6Off)]) ==
              if buf[ip6Off + 4] * 256 + buf[ip6Off + 5] >= |Encode(c)| + 8 then Some(Identity(echo)) else None
    {
      QuotedFound(buf, n, ip6Off, c, echo);
    }
  }

  /** The gatekeeper's walker: it finds an echo request exactly when the sniffer's walker,
      run on the packet cut at its end, stops at ICMPv6 with a whole echo request header, and
      then yields that header's identifier and sequence number. */
  method ParseOriginal(buf: seq<Byte>, n: nat, ip6Off: nat) returns (r: Option<(nat, nat)>)
    requires n <= |buf|
    ensures n < ip6Off + IP6_HEADER ==> r.None?
    ensures n >= ip6Off + IP6_HEADER ==> r == QuotedEcho(buf[ip6Off..PacketEnd(buf, n, ip6Off)])
    ensures forall c, echo :: Quotes(buf, n, ip6Off, c, echo) ==>
                                r == if buf[ip6Off + 4] * 256 + buf[ip6Off + 5] >= |Encode(c)| + 8
                                     then Some(Identity(echo)) else None
  {
    hide Transport, QuotedEcho, Walking, Answer, Units8, Units4, Be16;
    if n < ip6Off + IP6_HEADER {
      return None;
    }
    var next := buf[ip6Off + 6];
    var off := ip6Off + IP6_HEADER;
    var end := ip6Off + IP6_HEADER + Be16(buf[ip6Off + 4], buf[ip6Off + 5]);
    if end > n {
      end := n;
    }
    QuotedAll(buf, n, ip6Off);
    WalkStart(buf, ip6Off, end);
    while true
      invariant off <= end <= n && Walking(buf, ip6Off, end, next, off)
      decreases end - off
    {
      WalkOn(buf, ip6Off, end, next, off);
      if next == HOP_BY_HOP || next == ROUTING || next == DEST_OPTIONS {
        if off + 2 > end {
          return None;
        }
        next := buf[off];
        var hdrLen := Units8(buf[off + 1]);
        if hdrLen == 0 || off + hdrLen > end {
          return None;
        }
        off := off + hdrLen;
      } else if next == FRAGMENT {
        if off + 8 > end {
          return None;
        }
        next := buf[off];
        off := off + 8;
      } else if next == AUTH {
        if off + 2 > end {
          return None;
        }
        next := buf[off];
        var hdrLen := Units4(buf[off + 1]);
        if hdrLen == 0 || off + hdrLen > end {
          return None;
        }
        off := off + hdrLen;
      } else if next == ICMPV6 {
        WalkOver(buf, ip6Off, end, next, off);
        if off + ICMP6_HEADER > end {
          return None;
        }
        if buf[off] != ECHO_REQUEST {
          return None;
        }
        return Some((Be16(buf[off + 4], buf[off + 5]), Be16(buf[off + 6], buf[off + 7])));
      } else {
        WalkOver(buf, ip6Off, end, next, off);
        return None;
      }
    }
  }
}
