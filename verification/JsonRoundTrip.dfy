/**
 The skipper on texts of values: on any layout, and so on the canonical text, wherever it stands in
 a larger text, skip_value ends exactly behind it.
 */
module JsonRoundTrip {
  import opened Options
  import opened Texts
  import opened JsonText
  import opened JsonLayout
  import opened JsonDecode

  /** Where a scalar ends: at the end of the text or at a comma or closing bracket. */
  predicate Delimited(s: string, q: nat) {
    q == |s| || Is(s, q, ',') || Is(s, q, '}') || Is(s, q, ']')
  }

  // ----- strings

  lemma EscapeCharShape(c: char)
    ensures var e := EscapeChar(c);
            || (|e| == 1 && e[0] == c && c != '\\' && c != '"')
            || (|e| == 2 && e[0] == '\\')
            || (|e| == 6 && e[0] == '\\' && e[1] == 'u' && forall i :: 2 <= i < 6 ==> e[i] != '\\' && e[i] != '"')
  {
    if c < ' ' {
      HexShape(c as nat / 16);
      HexShape(c as nat % 16);
    }
  }

  lemma HexShape(n: nat)
    requires n < 16
    ensures HexDigit(n) != '\\' && HexDigit(n) != '"'
  {
  }

  lemma PlainStep(s: string, p: nat)
    requires p < |s| && s[p] != '\\' && s[p] != '"'
    ensures SkipBody(s, p) == SkipBody(s, p + 1)
  {
  }

  lemma SkipOneEscape(s: string, p: nat, c: char)
    requires At(s, p, EscapeChar(c)) && p + |EscapeChar(c)| < |s|
    ensures SkipBody(s, p) == SkipBody(s, p + |EscapeChar(c)|)
  {
    EscapeCharShape(c);
    var e := EscapeChar(c);
    hide EscapeChar;
    assert s[p + 0] == e[0];
    if |e| == 6 {
      assert s[p + 2] == e[2] && s[p + 3] == e[3] && s[p + 4] == e[4] && s[p + 5] == e[5];
      PlainStep(s, p + 2);
      PlainStep(s, p + 3);
      PlainStep(s, p + 4);
      PlainStep(s, p + 5);
    }
  }

  lemma QuoteEnds(s: string, p: nat)
    ensures Is(s, p, '"') ==> SkipBody(s, p) == Some(p + 1)
  {
  }

  lemma {:induction false} SkipBodyOfEscaped(s: string, p: nat, x: string)
    requires At(s, p, Escape(x)) && Is(s, p + |Escape(x)|, '"')
    ensures SkipBody(s, p) == Some(p + |Escape(x)| + 1)
    decreases |x|
  {
    QuoteEnds(s, p);
    hide EscapeChar, At, SkipBody;
    if x != "" {
      AtSplit(s, p, EscapeChar(x[0]), Escape(x[1..]));
      SkipOneEscape(s, p, x[0]);
      SkipBodyOfEscaped(s, p + |EscapeChar(x[0])|, x[1..]);
    }
  }

  lemma SkipStrOfQuoted(s: string, p: nat, x: string)
    requires At(s, p, Quoted(x))
    ensures SkipStr(s, p) == Some(p + |Quoted(x)|)
    ensures s[p + 1..p + |Quoted(x)| - 1] == Escape(x)
  {
    QuotedBody(x);
    hide At, Escape, SkipBody, Quoted;
    BetweenQuotes(s, p, Escape(x));
    SkipBodyOfEscaped(s, p + 1, x);
    AtSlice(s, p + 1, Escape(x));
  }

  lemma QuotedBody(x: string)
    ensures Quoted(x) == "\"" + Escape(x) + "\""
  {
  }

  lemma BetweenQuotes(s: string, p: nat, b: string)
    requires At(s, p, "\"" + b + "\"")
    ensures Is(s, p, '"') && At(s, p + 1, b) && Is(s, p + 1 + |b|, '"')
  {
    AtSplit(s, p, "\"" + b, "\"");
    AtSplit(s, p, "\"", b);
    assert s[p + 0] == "\""[0] && s[p + 1 + |b| + 0] == "\""[0];
  }

  // ----- skipping a value

  lemma NoSpace(s: string, p: nat)
    requires p <= |s| && (p < |s| ==> !IsSpace(s[p]))
    ensures SkipWs(s, p) == p
  {
  }

  lemma {:induction false} SkipScalarOfText(s: string, p: nat, n: nat)
    requires p + n <= |s| && Delimited(s, p + n)
    requires forall k :: p <= k < p + n ==> ScalarChar(s[k])
    ensures SkipScalar(s, p) == p + n
    decreases n
  {
    if n > 0 {
      assert ScalarChar(s[p]);
      SkipScalarOfText(s, p + 1, n - 1);
    }
  }

  lemma ScalarAt(s: string, p: nat, t: string)
    requires At(s, p, t) && IsScalarText(t)
    ensures forall k :: p <= k < p + |t| ==> ScalarChar(s[k])
  {
    forall k | p <= k < p + |t|
      ensures ScalarChar(s[k])
    {
      assert s[p + (k - p)] == t[k - p];
    }
  }

  lemma SkipAtom(s: string, p: nat, v: Json)
    requires At(s, p, Text(v)) && Delimited(s, p + |Text(v)|) && !v.Obj? && !v.Arr?
    ensures SkipValue(s, p) == Some(p + |Text(v)|)
  {
    TextEnds(v);
    assert s[p + 0] == Text(v)[0];
    NoSpace(s, p);
    if v.Str? {
      SkipStrOfQuoted(s, p, v.text);
    } else {
      ScalarText(v);
      ScalarAt(s, p, Text(v));
      SkipScalarOfText(s, p, |Text(v)|);
    }
  }

  // ----- blanks

  /** Skipping white space passes a blank. */
  lemma {:induction false} WsBlank(s: string, p: nat, b: Blank)
    requires At(s, p, b)
    ensures p + |b| <= |s| && SkipWs(s, p) == SkipWs(s, p + |b|)
    decreases |b|
  {
    if b != "" {
      assert s[p + 0] == b[0];
      AtSplit(s, p, [b[0]], b[1..]);
      assert b == [b[0]] + b[1..];
      WsBlank(s, p + 1, b[1..]);
    }
  }

  /** And ends behind it when no more white space follows. */
  lemma WsEnds(s: string, p: nat, b: Blank)
    requires At(s, p, b) && (p + |b| < |s| ==> !IsSpace(s[p + |b|]))
    ensures p + |b| <= |s| && SkipWs(s, p) == p + |b|
  {
    hide At;
    WsBlank(s, p, b);
    NoSpace(s, p + |b|);
  }

  /** Everything that starts by skipping white space can start behind a blank. */
  lemma StartBehind(s: string, p: nat, b: Blank)
    requires At(s, p, b)
    ensures p + |b| <= |s| && SkipValue(s, p) == SkipValue(s, p + |b|)
    ensures SkipMembers(s, p) == SkipMembers(s, p + |b|) && SkipElems(s, p) == SkipElems(s, p + |b|)
    ensures MemberAt(s, p) == MemberAt(s, p + |b|)
  {
    hide At, SkipValue, SkipMembers, SkipElems, MemberAt, SkipWs;
    WsBlank(s, p, b);
    SameStart(s, p, p + |b|);
    SameMembers(s, p, p + |b|);
    SameElems(s, p, p + |b|);
  }

  lemma SameStart(s: string, p: nat, q: nat)
    requires p <= |s| && q <= |s| && SkipWs(s, p) == SkipWs(s, q)
    ensures SkipValue(s, p) == SkipValue(s, q)
  {
    hide SkipWs, SkipMembers, SkipElems, SkipStr, SkipScalar;
  }

  lemma SameMembers(s: string, p: nat, q: nat)
    requires p <= |s| && q <= |s| && SkipWs(s, p) == SkipWs(s, q)
    ensures SkipMembers(s, p) == SkipMembers(s, q) && MemberAt(s, p) == MemberAt(s, q)
  {
    hide SkipWs, SkipValue, SkipStr;
  }

  lemma SameElems(s: string, p: nat, q: nat)
    requires p <= |s| && q <= |s| && SkipWs(s, p) == SkipWs(s, q)
    ensures SkipElems(s, p) == SkipElems(s, q)
  {
    hide SkipWs, SkipValue;
  }

  lemma InText(s: string, p: nat, t: string)
    requires At(s, p, t)
    ensures p + |t| <= |s| && (t != "" ==> s[p] == t[0])
  {
    assert t != "" ==> s[p + 0] == t[0];
  }

  // ----- the tokens of a layout

  /** Where a value may end. */
  predicate Ends(s: string, q: nat, l: Layout) {
    q <= |s| && (Bare(l) ==> Delimited(s, q))
  }

  lemma OpenAt(s: string, p: nat, open: string, b: Blank, body: string, close: string)
    requires |open| == 1 && |close| == 1 && At(s, p, open + (b + (body + close)))
    ensures Is(s, p, open[0]) && At(s, p + 1, b)
    ensures At(s, p + 1 + |b|, body) && Is(s, p + 1 + |b| + |body|, close[0])
  {
    AtSplit(s, p, open, b + (body + close));
    AtSplit(s, p + 1, b, body + close);
    AtSplit(s, p + 1 + |b|, body, close);
    hide At;
    InText(s, p, open);
    InText(s, p + 1 + |b| + |body|, close);
  }

  /** Where the tokens of a member are, when it starts at p: the end of its key, the colon, the
      value's start and end, and what ends the member. */
  datatype Places = Places(keyEnd: nat, colon: nat, start: nat, end: nat, stop: nat, next: nat)

  function PlacesOf(p: nat, ms: LMembers): Places
    requires ms.Next?
  {
    var k := p + |Quoted(ms.key)|;
    var c := k + |ms.colon|;
    var v := c + 1 + |ms.before|;
    var e := v + |Spaced(ms.value)|;
    var d := e + |ms.behind|;
    Places(k, c, v, e, d, d + 1 + |ms.comma|)
  }

  ghost predicate MembersAt(s: string, p: nat, ms: LMembers) {
    LaidMembers(ms) && At(s, p, SpacedMembers(ms)) && Is(s, p + |SpacedMembers(ms)|, '}')
  }

  lemma MembersParts(s: string, p: nat, ms: LMembers)
    requires MembersAt(s, p, ms) && ms.Next?
    ensures var x := PlacesOf(p, ms);
            && Is(s, p, '"') && At(s, p, Quoted(ms.key))
            && At(s, x.keyEnd, ms.colon) && Is(s, x.colon, ':') && At(s, x.colon + 1, ms.before)
            && At(s, x.start, Spaced(ms.value)) && At(s, x.end, ms.behind) && Ends(s, x.end, ms.value)
    ensures var x := PlacesOf(p, ms);
            if ms.rest.NoMore? then Is(s, x.stop, '}') && x.stop == p + |SpacedMembers(ms)|
            else
              && Is(s, x.stop, ',') && At(s, x.stop + 1, ms.comma) && MembersAt(s, x.next, ms.rest)
              && x.next + |SpacedMembers(ms.rest)| == p + |SpacedMembers(ms)|
  {
    hide At, Quoted, Spaced, Text, SpacedMembers, Laid, LaidMembers;
    var x := PlacesOf(p, ms);
    LaidParts(ms);
    MemberShape(ms);
    var q, t, tail := Quoted(ms.key), Spaced(ms.value), Tail(ms.comma, ms.rest);
    QuoteFirst(ms.key);
    SplitSix(s, p, q, ms.colon, ":", ms.before, t, ms.behind, tail);
    TailParts(s, x.stop, ms.comma, ms.rest);
    if Bare(ms.value) {
      assert ms.behind == "";
    }
  }

  lemma LaidParts(ms: LMembers)
    requires LaidMembers(ms) && ms.Next?
    ensures Laid(ms.value) && (Bare(ms.value) ==> ms.behind == "") && LaidMembers(ms.rest)
  {
  }

  lemma MemberShape(ms: LMembers)
    requires ms.Next?
    ensures SpacedMembers(ms) ==
            Quoted(ms.key) +
            (ms.colon + (":" + (ms.before + (Spaced(ms.value) + (ms.behind + Tail(ms.comma, ms.rest))))))
    ensures |SpacedMembers(ms)| == PlacesOf(0, ms).stop + |Tail(ms.comma, ms.rest)|
  {
  }

  lemma QuoteFirst(key: string)
    ensures Quoted(key) != "" && Quoted(key)[0] == '"'
  {
  }

  lemma SplitSix(s: string, p: nat, a: string, b: string, c: string, d: string, e: string, f: string, g: string)
    requires |c| == 1 && At(s, p, a + (b + (c + (d + (e + (f + g)))))) && a != ""
    ensures At(s, p, a) && Is(s, p, a[0]) && At(s, p + |a|, b) && Is(s, p + |a| + |b|, c[0])
    ensures var q := p + |a| + |b| + 1;
            && At(s, q, d) && At(s, q + |d|, e) && At(s, q + |d| + |e|, f) && At(s, q + |d| + |e| + |f|, g)
            && q + |d| + |e| + |f| + |g| <= |s|
  {
    hide At;
    AtSplit(s, p, a, b + (c + (d + (e + (f + g)))));
    AtSplit(s, p + |a|, b, c + (d + (e + (f + g))));
    AtSplit(s, p + |a| + |b|, c, d + (e + (f + g)));
    var q := p + |a| + |b| + 1;
    AtSplit(s, q, d, e + (f + g));
    AtSplit(s, q + |d|, e, f + g);
    AtSplit(s, q + |d| + |e|, f, g);
    InText(s, p, a);
    InText(s, p + |a| + |b|, c);
    InText(s, q + |d| + |e| + |f|, g);
  }

  lemma TailParts(s: string, p: nat, comma: Blank, rest: LMembers)
    requires At(s, p, Tail(comma, rest))
    ensures rest.NoMore? ==> Tail(comma, rest) == ""
    ensures rest.Next? ==> |Tail(comma, rest)| == 1 + |comma| + |SpacedMembers(rest)| && Is(s, p, ',')
                           && At(s, p + 1, comma) && At(s, p + 1 + |comma|, SpacedMembers(rest))
  {
    hide At, SpacedMembers;
    if rest.Next? {
      CommaAt(s, p, comma, SpacedMembers(rest));
    }
  }

  lemma CommaAt(s: string, p: nat, comma: Blank, rest: string)
    requires At(s, p, "," + (comma + rest))
    ensures Is(s, p, ',') && At(s, p + 1, comma) && At(s, p + 1 + |comma|, rest)
  {
    AtSplit(s, p, ",", comma + rest);
    AtSplit(s, p + 1, comma, rest);
    hide At;
    InText(s, p, ",");
  }

  // ----- skipping a layout

  /** Wherever the text of a value with any blanks between its tokens stands, skip_value ends exactly
      behind it; a number, true, false or null must be followed by the end or a delimiter. */
  lemma {:induction false} SkipValueOfSpaced(s: string, p: nat, l: Layout)
    requires Laid(l) && At(s, p, Spaced(l)) && Ends(s, p + |Spaced(l)|, l)
    ensures SkipValue(s, p) == Some(p + |Spaced(l)|)
    decreases l, 0
  {
    hide SpacedMembers, SpacedElems, Text, At, SkipMembers, SkipElems, SkipStr, SkipScalar;
    match l
    case Object(open, ms) =>
      OpenAt(s, p, "{", open, SpacedMembers(ms), "}");
      NoSpace(s, p);
      StartBehind(s, p + 1, open);
      SkipMembersOfSpaced(s, p + 1 + |open|, ms);
    case Array(open, es) =>
      OpenAt(s, p, "[", open, SpacedElems(es), "]");
      NoSpace(s, p);
      StartBehind(s, p + 1, open);
      SkipElemsOfSpaced(s, p + 1 + |open|, es);
    case Leaf(v) =>
      SkipLeaf(s, p, v);
  }

  lemma SkipLeaf(s: string, p: nat, v: Json)
    requires At(s, p, Text(v)) && (Delimited(s, p + |Text(v)|) || v.Str?) && !v.Obj? && !v.Arr?
    ensures SkipValue(s, p) == Some(p + |Text(v)|)
  {
    if v.Str? {
      SkipQuoted(s, p, v.text);
    } else {
      SkipAtom(s, p, v);
    }
  }

  lemma SkipQuoted(s: string, p: nat, x: string)
    requires At(s, p, Quoted(x))
    ensures SkipValue(s, p) == Some(p + |Quoted(x)|)
  {
    hide At, Quoted, SkipStr;
    SkipStrOfQuoted(s, p, x);
    QuoteFirst(x);
    InText(s, p, Quoted(x));
    NoSpace(s, p);
  }

  lemma {:induction false} SkipMembersOfSpaced(s: string, p: nat, ms: LMembers)
    requires MembersAt(s, p, ms)
    ensures SkipMembers(s, p) == Some(p + |SpacedMembers(ms)| + 1)
    decreases ms, 1
  {
    hide SkipMembers, SkipStr, SkipValue, At, Spaced, SpacedMembers, MembersAt, SkipWs, PlacesOf, Ends, Laid, Escape;
    EmptyBody(s, p);
    MembersNone(s, p, ms);
    if ms.Next? {
      var x := PlacesOf(p, ms);
      MemberWalk(s, p, ms);
      SkipValueOfSpaced(s, x.start, ms.value);
      if ms.rest.Next? {
        SkipMembersOfSpaced(s, x.next, ms.rest);
        StartBehind(s, x.stop + 1, ms.comma);
      }
      MemberSkipped(s, p, x, ms.rest.Next?);
    }
  }

  lemma MembersNone(s: string, p: nat, ms: LMembers)
    requires MembersAt(s, p, ms)
    ensures ms.NoMore? ==> SpacedMembers(ms) == "" && Is(s, p, '}')
  {
  }

  lemma MembersRest(s: string, p: nat, ms: LMembers)
    requires MembersAt(s, p, ms) && ms.Next?
    ensures Laid(ms.value)
  {
  }

  /** What follows a member: the closing brace, or a comma and the next member. */
  ghost predicate Continues(s: string, p: nat, ms: LMembers)
    requires ms.Next?
  {
    var x := PlacesOf(p, ms);
    if ms.rest.NoMore? then Is(s, x.stop, '}') && x.stop == p + |SpacedMembers(ms)|
    else
      && Is(s, x.stop, ',') && At(s, x.stop + 1, ms.comma) && x.next == x.stop + 1 + |ms.comma|
      && MembersAt(s, x.next, ms.rest) && x.next + |SpacedMembers(ms.rest)| == p + |SpacedMembers(ms)|
  }

  /** The walk over one member, token by token. */
  lemma MemberWalk(s: string, p: nat, ms: LMembers)
    requires MembersAt(s, p, ms) && ms.Next?
    ensures var x := PlacesOf(p, ms);
            && p < x.keyEnd <= x.colon < x.start < x.end <= x.stop < |s|
            && SkipStr(s, p) == Some(x.keyEnd) && s[p + 1..x.keyEnd - 1] == Escape(ms.key)
            && SkipWs(s, p) == p && SkipWs(s, x.keyEnd) == x.colon && Is(s, x.colon, ':')
            && SkipWs(s, x.colon + 1) == x.start && SkipWs(s, x.start) == x.start
            && SkipWs(s, x.end) == x.stop && SkipWs(s, x.stop) == x.stop
            && Laid(ms.value) && At(s, x.start, Spaced(ms.value)) && x.end == x.start + |Spaced(ms.value)|
            && Ends(s, x.end, ms.value)
    ensures Continues(s, p, ms)
  {
    hide At, Quoted, Spaced, SpacedMembers, MembersAt, SkipStr, SkipWs, Escape;
    MembersParts(s, p, ms);
    MembersRest(s, p, ms);
    var x := PlacesOf(p, ms);
    SkipStrOfQuoted(s, p, ms.key);
    QuoteFirst(ms.key);
    SpacedStarts(ms.value);
    InText(s, x.start, Spaced(ms.value));
    InText(s, x.end, ms.behind);
    NoSpace(s, p);
    WsEnds(s, x.keyEnd, ms.colon);
    WsEnds(s, x.colon + 1, ms.before);
    NoSpace(s, x.start);
    WsEnds(s, x.end, ms.behind);
    NoSpace(s, x.stop);
  }

  lemma EmptyBody(s: string, p: nat)
    ensures Is(s, p, '}') ==> SkipMembers(s, p) == Some(p + 1)
    ensures Is(s, p, ']') ==> SkipElems(s, p) == Some(p + 1)
  {
    if p < |s| && !IsSpace(s[p]) {
      NoSpace(s, p);
    }
  }

  lemma MemberSkipped(s: string, p: nat, x: Places, more: bool)
    requires p < x.keyEnd <= x.colon < x.start < x.end <= x.stop < |s| && Is(s, p, '"')
    requires SkipStr(s, p) == Some(x.keyEnd) && SkipWs(s, p) == p
    requires SkipWs(s, x.keyEnd) == x.colon && Is(s, x.colon, ':')
    requires SkipWs(s, x.colon + 1) == x.start && SkipWs(s, x.start) == x.start && SkipValue(s, x.start) == Some(x.end)
    requires SkipWs(s, x.end) == x.stop && if more then Is(s, x.stop, ',') else Is(s, x.stop, '}')
    ensures SkipMembers(s, p) == if more then SkipMembers(s, x.stop + 1) else Some(x.stop + 1)
  {
    hide SkipStr, SkipWs, SkipValue;
    SameStart(s, x.colon + 1, x.start);
  }

  // ----- elements

  ghost predicate ElemsAt(s: string, p: nat, es: LElems) {
    LaidElems(es) && At(s, p, SpacedElems(es)) && Is(s, p + |SpacedElems(es)|, ']')
  }

  /** The value's end, what ends the element, and where the next one starts. */
  datatype ElemPlaces = ElemPlaces(end: nat, stop: nat, next: nat)

  function ElemPlacesOf(p: nat, es: LElems): ElemPlaces
    requires es.NextElem?
  {
    var e := p + |Spaced(es.value)|;
    ElemPlaces(e, e + |es.behind|, e + |es.behind| + 1 + |es.comma|)
  }

  lemma ElemsParts(s: string, p: nat, es: LElems)
    requires ElemsAt(s, p, es) && es.NextElem?
    ensures var x := ElemPlacesOf(p, es);
            && Laid(es.value) && At(s, p, Spaced(es.value)) && Ends(s, x.end, es.value)
            && p < x.end <= x.stop < |s| && s[p] != ']' && SkipWs(s, p) == p
            && SkipWs(s, x.end) == x.stop && SkipWs(s, x.stop) == x.stop
    ensures var x := ElemPlacesOf(p, es);
            if es.rest.NoElems? then Is(s, x.stop, ']') && x.stop == p + |SpacedElems(es)|
            else
              && Is(s, x.stop, ',') && At(s, x.stop + 1, es.comma) && ElemsAt(s, x.next, es.rest)
              && x.next + |SpacedElems(es.rest)| == p + |SpacedElems(es)|
  {
    hide At, Spaced, SpacedElems, SkipWs, Laid, LaidElems;
    ElemShape(es);
    ElemLaid(es);
    var x, t, tail := ElemPlacesOf(p, es), Spaced(es.value), ElemTail(es.comma, es.rest);
    AtSplit(s, p, t, es.behind + tail);
    AtSplit(s, x.end, es.behind, tail);
    SpacedStarts(es.value);
    InText(s, p, t);
    InText(s, x.stop, tail);
    InText(s, p + |SpacedElems(es)|, "");
    ElemTailParts(s, x.stop, es.comma, es.rest);
    NoSpace(s, p);
    WsEnds(s, x.end, es.behind);
    NoSpace(s, x.stop);
  }

  lemma ElemShape(es: LElems)
    requires es.NextElem?
    ensures SpacedElems(es) == Spaced(es.value) + (es.behind + ElemTail(es.comma, es.rest))
    ensures |SpacedElems(es)| == ElemPlacesOf(0, es).stop + |ElemTail(es.comma, es.rest)|
  {
  }

  lemma ElemLaid(es: LElems)
    requires LaidElems(es) && es.NextElem?
    ensures Laid(es.value) && (Bare(es.value) ==> es.behind == "") && LaidElems(es.rest)
  {
  }

  lemma ElemTailParts(s: string, p: nat, comma: Blank, rest: LElems)
    requires At(s, p, ElemTail(comma, rest))
    ensures rest.NoElems? ==> ElemTail(comma, rest) == ""
    ensures rest.NextElem? ==> |ElemTail(comma, rest)| == 1 + |comma| + |SpacedElems(rest)| && Is(s, p, ',')
                               && At(s, p + 1, comma) && At(s, p + 1 + |comma|, SpacedElems(rest))
  {
    hide At, SpacedElems;
    if rest.NextElem? {
      CommaAt(s, p, comma, SpacedElems(rest));
    }
  }

  lemma {:induction false} SkipElemsOfSpaced(s: string, p: nat, es: LElems)
    requires ElemsAt(s, p, es)
    ensures SkipElems(s, p) == Some(p + |SpacedElems(es)| + 1)
    decreases es, 1
  {
    hide SkipElems, SkipValue, At, Text, Spaced, SpacedElems, ElemsAt, SkipWs;
    EmptyBody(s, p);
    ElemsNone(s, p, es);
    if es.NextElem? {
      ElemsParts(s, p, es);
      var x := ElemPlacesOf(p, es);
      SkipValueOfSpaced(s, p, es.value);
      if es.rest.NextElem? {
        SkipElemsOfSpaced(s, x.next, es.rest);
        StartBehind(s, x.stop + 1, es.comma);
      }
      ElemSkipped(s, p, x, es.rest.NextElem?);
    }
  }

  lemma ElemsNone(s: string, p: nat, es: LElems)
    requires ElemsAt(s, p, es)
    ensures es.NoElems? ==> SpacedElems(es) == "" && Is(s, p, ']')
  {
  }

  lemma ElemSkipped(s: string, p: nat, x: ElemPlaces, more: bool)
    requires p < x.end <= x.stop < |s| && SkipWs(s, p) == p && s[p] != ']' && SkipValue(s, p) == Some(x.end)
    requires SkipWs(s, x.end) == x.stop && if more then Is(s, x.stop, ',') else Is(s, x.stop, ']')
    ensures SkipElems(s, p) == if more then SkipElems(s, x.stop + 1) else Some(x.stop + 1)
  {
    hide SkipValue, SkipWs;
  }

  /** In particular on the canonical text, followed by the end or a delimiter. */
  lemma SkipValueOfText(s: string, p: nat, v: Json)
    requires At(s, p, Text(v)) && Delimited(s, p + |Text(v)|)
    ensures SkipValue(s, p) == Some(p + |Text(v)|)
  {
    hide Text, Spaced, At, SkipValue, Laid;
    CompactIsText(v);
    SkipValueOfSpaced(s, p, Compact(v));
  }
}
