/**
 What the decoder recovers from encoded values: members by key, array elements, strings,
 integers and booleans, and exactly when it does not.
 */
module JsonRecover {
  import opened Options
  import opened Texts
  import opened JsonText
  import opened JsonLayout
  import opened JsonDecode
  import opened JsonRoundTrip

  // ----- members

  /** The first member whose encoded key is exactly these bytes. */
  function FirstWith(ms: Members, raw: string): Option<Json> {
    if ms.NoMember? then None
    else if Escape(ms.key) == raw then Some(ms.value)
    else FirstWith(ms.rest, raw)
  }

  function Count(ms: Members): nat {
    if ms.NoMember? then 0 else 1 + Count(ms.rest)
  }

  /** The place of that member; the number of members when there is none. */
  function RawIndex(ms: Members, raw: string): nat {
    if ms.NoMember? || Escape(ms.key) == raw then 0 else 1 + RawIndex(ms.rest, raw)
  }

  /** How that member's value is laid out. */
  function FirstLaid(ms: LMembers, raw: string): Option<Layout> {
    if ms.NoMore? then None
    else if Escape(ms.key) == raw then Some(ms.value)
    else FirstLaid(ms.rest, raw)
  }

  lemma {:induction false} FirstLaidTree(ms: LMembers, raw: string)
    requires LaidMembers(ms)
    ensures match FirstLaid(ms, raw)
            case None => FirstWith(TreeMembers(ms), raw) == None
            case Some(l) => Laid(l) && FirstWith(TreeMembers(ms), raw) == Some(Tree(l))
  {
    hide Escape, Tree, Laid;
    if ms.Next? && Escape(ms.key) != raw {
      FirstLaidTree(ms.rest, raw);
    }
  }

  lemma {:induction false} FirstCompact(ms: Members, raw: string)
    ensures FirstLaid(CompactMembers(ms), raw) ==
            match FirstWith(ms, raw)
            case None => None
            case Some(v) => Some(Compact(v))
  {
    hide Escape, Compact;
    if ms.Member? && Escape(ms.key) != raw {
      FirstCompact(ms.rest, raw);
    }
  }

  /** Where the value of the i-th member stands when the members start at p. */
  function SpanAt(ms: LMembers, p: nat, i: nat): Option<Span> {
    if ms.NoMore? then None
    else
      var x := PlacesOf(p, ms);
      if i == 0 then Some(Span(x.start, x.end)) else SpanAt(ms.rest, x.next, i - 1)
  }

  ghost predicate Finds(s: string, span: Option<Span>, l: Option<Layout>) {
    if l.None? then span.None?
    else
      && span.Some? && At(s, span.value.start, Spaced(l.value))
      && span.value.end == span.value.start + |Spaced(l.value)|
  }

  lemma MemberAtSpaced(s: string, p: nat, ms: LMembers)
    requires MembersAt(s, p, ms) && ms.Next?
    ensures var x := PlacesOf(p, ms);
            && p < x.keyEnd && x.end <= |s| && x.stop <= |s|
            && MemberAt(s, p) == Some(MemberSpan(Span(p + 1, x.keyEnd - 1), Span(x.start, x.end)))
            && s[p + 1..x.keyEnd - 1] == Escape(ms.key) && At(s, x.start, Spaced(ms.value))
            && x.end == x.start + |Spaced(ms.value)| && SkipWs(s, x.end) == x.stop
  {
    hide Spaced, Escape, At, SkipStr, SkipValue, SpacedMembers, MembersAt, SkipWs, PlacesOf, Ends, Laid, Continues;
    MemberWalk(s, p, ms);
    SkipValueOfSpaced(s, PlacesOf(p, ms).start, ms.value);
  }

  lemma {:induction false} FindMemberOfSpaced(s: string, p: nat, ms: LMembers, key: string)
    requires MembersAt(s, p, ms)
    ensures Finds(s, FindMember(s, p, key), FirstLaid(ms, key))
    ensures FindMember(s, p, key) == SpanAt(ms, p, RawIndex(TreeMembers(ms), key))
    decreases ms
  {
    hide MemberAt, SkipWs, Spaced, Escape, At, FindMember, MembersAt, PlacesOf, SkipValue, SkipStr, Laid, Ends;
    MembersNone(s, p, ms);
    NoMemberHere(s, p, key);
    if ms.Next? {
      MemberAtSpaced(s, p, ms);
      MemberWalk(s, p, ms);
      var x := PlacesOf(p, ms);
      FindStep(s, p, key);
      if Escape(ms.key) != key && ms.rest.Next? {
        FindMemberOfSpaced(s, x.next, ms.rest, key);
        FindBehind(s, x.stop + 1, ms.comma, key);
      }
      EndsHere(s, x.stop, ms.rest);
    }
  }

  lemma EndsHere(s: string, p: nat, rest: LMembers)
    ensures Is(s, p, '}') ==> !Is(s, p, ',')
  {
  }

  lemma FindBehind(s: string, p: nat, b: Blank, key: string)
    requires At(s, p, b)
    ensures p + |b| <= |s| && FindMember(s, p, key) == FindMember(s, p + |b|, key)
  {
    hide At, MemberAt, FindMember, SkipWs;
    StartBehind(s, p, b);
    FindNone(s, p, key);
    FindNone(s, p + |b|, key);
    if MemberAt(s, p).Some? {
      FindStep(s, p, key);
      FindStep(s, p + |b|, key);
    }
  }

  lemma FindNone(s: string, p: nat, key: string)
    requires p <= |s|
    ensures MemberAt(s, p).None? ==> FindMember(s, p, key).None?
  {
    hide MemberAt;
  }

  lemma NoMemberHere(s: string, p: nat, key: string)
    ensures Is(s, p, '}') ==> FindMember(s, p, key).None?
  {
    if Is(s, p, '}') {
      NoSpace(s, p);
    }
  }

  lemma FindStep(s: string, p: nat, key: string)
    requires p <= |s| && MemberAt(s, p).Some?
    ensures var m := MemberAt(s, p).value; var e := SkipWs(s, m.value.end);
            FindMember(s, p, key) == if s[m.key.start..m.key.end] == key then Some(m.value)
                                     else if Is(s, e, ',') then FindMember(s, e + 1, key) else None
  {
  }

  /** On the text of an object with any blanks, wherever it stands, obj_get yields the span of the
      first member whose encoded key equals the bytes asked for, and nothing when there is none. */
  lemma ObjGetOfSpaced(s: string, p: nat, open: Blank, ms: LMembers, key: string)
    requires LaidMembers(ms) && At(s, p, Spaced(Object(open, ms)))
    ensures Finds(s, ObjGet(s, p, key), FirstLaid(ms, key))
    ensures ObjGet(s, p, key) == SpanAt(ms, p + 1 + |open|, RawIndex(TreeMembers(ms), key))
  {
    hide FindMember, FirstLaid, SpacedMembers, SpanAt, RawIndex, At, LaidMembers;
    ObjectShape(open, ms);
    OpenAt(s, p, "{", open, SpacedMembers(ms), "}");
    NoSpace(s, p);
    FindBehind(s, p + 1, open, key);
    FindMemberOfSpaced(s, p + 1 + |open|, ms, key);
  }

  lemma ObjectShape(open: Blank, ms: LMembers)
    ensures Spaced(Object(open, ms)) == "{" + (open + (SpacedMembers(ms) + "}"))
  {
  }

  /** In particular on the canonical text. */
  lemma ObjGetOfText(s: string, p: nat, ms: Members, key: string)
    requires At(s, p, Text(Obj(ms)))
    ensures match FirstWith(ms, key)
            case None => ObjGet(s, p, key).None?
            case Some(v) => ObjGet(s, p, key).Some? && At(s, ObjGet(s, p, key).value.start, Text(v))
                            && ObjGet(s, p, key).value.end == ObjGet(s, p, key).value.start + |Text(v)|
  {
    hide Text, Spaced, At, ObjGet, FirstWith, FirstLaid;
    CompactIsText(Obj(ms));
    CompactMembersText(ms);
    ObjGetOfSpaced(s, p, "", CompactMembers(ms), key);
    FirstCompact(ms, key);
    if FirstWith(ms, key).Some? {
      CompactIsText(FirstWith(ms, key).value);
    }
  }

  // ----- which keys can be looked up

  predicate PlainChar(c: char) {
    c >= ' ' && c != '"' && c != '\\'
  }

  ghost predicate PlainKey(key: string) {
    forall i :: 0 <= i < |key| ==> PlainChar(key[i])
  }

  lemma PlainEscape(c: char)
    ensures PlainChar(c) ==> EscapeChar(c) == [c]
    ensures !PlainChar(c) ==> |EscapeChar(c)| >= 2
  {
  }

  /** Escaping leaves exactly the plain strings alone and makes every other string longer. */
  lemma {:induction false} EscapeFixesPlain(key: string)
    ensures |Escape(key)| >= |key|
    ensures |Escape(key)| == |key| <==> PlainKey(key)
    ensures PlainKey(key) ==> Escape(key) == key
  {
    hide EscapeChar;
    if key != "" {
      EscapeFixesPlain(key[1..]);
      PlainEscape(key[0]);
      assert PlainKey(key) <==> PlainChar(key[0]) && PlainKey(key[1..]);
      assert key == [key[0]] + key[1..];
    }
  }

  lemma WholeText(t: string)
    ensures At(t, 0, t)
  {
  }

  /** The first member under a key, comparing the keys themselves. */
  function Lookup(ms: Members, key: string): Option<Json> {
    if ms.NoMember? then None
    else if ms.key == key then Some(ms.value)
    else Lookup(ms.rest, key)
  }

  /** The place of the first member under a key; the number of members when there is none. */
  function KeyIndex(ms: Members, key: string): nat {
    if ms.NoMember? || ms.key == key then 0 else 1 + KeyIndex(ms.rest, key)
  }

  /** An escaped key that needed escapes has a backslash in it. */
  lemma {:induction false} EscapesShow(key: string)
    ensures PlainKey(Escape(key)) ==> PlainKey(key)
  {
    hide EscapeChar;
    if key != "" {
      var e, rest := EscapeChar(key[0]), Escape(key[1..]);
      PlainOfConcat(e, rest);
      EscapesShow(key[1..]);
      BackslashShows(key[0]);
      assert PlainKey(key) <==> PlainChar(key[0]) && PlainKey(key[1..]);
    }
  }

  lemma BackslashShows(c: char)
    ensures PlainKey(EscapeChar(c)) ==> PlainChar(c)
  {
    if !PlainChar(c) {
      assert !PlainChar(EscapeChar(c)[0]);
    }
  }

  lemma PlainOfConcat(a: string, b: string)
    ensures PlainKey(a + b) ==> PlainKey(a) && PlainKey(b)
  {
    assert forall i :: 0 <= i < |a| ==> (a + b)[i] == a[i];
    assert forall i :: 0 <= i < |b| ==> (a + b)[|a| + i] == b[i];
  }

  /** Asked for a key without escapes, comparing raw bytes finds the same member as comparing keys. */
  lemma {:induction false} PlainLookup(ms: Members, key: string)
    requires PlainKey(key)
    ensures FirstWith(ms, key) == Lookup(ms, key) && RawIndex(ms, key) == KeyIndex(ms, key)
  {
    hide Escape, PlainKey;
    if ms.Member? {
      EscapeFixesPlain(key);
      EscapeFixesPlain(ms.key);
      EscapesShow(ms.key);
      PlainLookup(ms.rest, key);
    }
  }

  /** Asked for a key that needs escapes, comparing raw bytes passes the member with that key by. */
  lemma {:induction false} EscapedLookup(ms: Members, key: string)
    requires !PlainKey(key) && KeyIndex(ms, key) < Count(ms)
    ensures RawIndex(ms, key) != KeyIndex(ms, key)
  {
    hide Escape, PlainKey;
    EscapeFixesPlain(key);
    if ms.key != key && Escape(ms.key) != key {
      EscapedLookup(ms.rest, key);
    }
  }

  lemma {:induction false} SpansAdvance(ms: LMembers, p: nat, i: nat)
    ensures SpanAt(ms, p, i).Some? <==> i < Count(TreeMembers(ms))
    ensures i < Count(TreeMembers(ms)) ==> SpanAt(ms, p, i).value.start > p
  {
    hide Quoted, Spaced;
    if ms.Next? && i > 0 {
      SpansAdvance(ms.rest, PlacesOf(p, ms).next, i - 1);
    }
  }

  lemma {:induction false} SpansDiffer(ms: LMembers, p: nat, i: nat, j: nat)
    requires i < Count(TreeMembers(ms)) && i != j
    ensures SpanAt(ms, p, i) != SpanAt(ms, p, j)
    decreases ms
  {
    hide Quoted, Spaced, Tree;
    var next := PlacesOf(p, ms).next;
    if i == 0 {
      SpansAdvance(ms.rest, next, j - 1);
    } else if j == 0 {
      SpansAdvance(ms.rest, next, i - 1);
    } else {
      SpansDiffer(ms.rest, next, i - 1, j - 1);
    }
  }

  /** In the text of any object that has a member under a key, obj_get asked for that key stops at the
      first such member if and only if the key needs no escapes. */
  lemma OwnKeyFinds(open: Blank, ms: LMembers, key: string)
    requires LaidMembers(ms) && KeyIndex(TreeMembers(ms), key) < Count(TreeMembers(ms))
    ensures ObjGet(Spaced(Object(open, ms)), 0, key) == SpanAt(ms, 1 + |open|, KeyIndex(TreeMembers(ms), key)) <==>
            PlainKey(key)
  {
    hide Spaced, ObjGet, At, PlainKey, SpanAt, KeyIndex, RawIndex, Count, LaidMembers, FirstLaid;
    var tree := TreeMembers(ms);
    WholeText(Spaced(Object(open, ms)));
    ObjGetOfSpaced(Spaced(Object(open, ms)), 0, open, ms, key);
    if PlainKey(key) {
      PlainLookup(tree, key);
    } else {
      EscapedLookup(tree, key);
      SpansDiffer(ms, 1 + |open|, KeyIndex(tree, key), RawIndex(tree, key));
    }
  }

  /** A key that needs escapes can even be found as the wrong member: for any such k, the bytes of
      its encoding are the key of another member, and asking for those yields the value under k. */
  lemma WrongMember(k: string, v: Json, w: Json)
    requires !PlainKey(k)
    ensures var ms := Member(k, v, Member(Escape(k), w, NoMember));
            && Lookup(ms, Escape(k)) == Some(w) && KeyIndex(ms, Escape(k)) == 1
            && ObjGet(Text(Obj(ms)), 0, Escape(k)) == SpanAt(CompactMembers(ms), 1, 0)
  {
    hide Text, ObjGet, At, Spaced, SpanAt, PlainKey;
    var ms := Member(k, v, Member(Escape(k), w, NoMember));
    EscapeFixesPlain(k);
    WholeText(Text(Obj(ms)));
    CompactIsText(Obj(ms));
    CompactMembersText(ms);
    ObjGetOfSpaced(Text(Obj(ms)), 0, "", CompactMembers(ms), Escape(k));
  }

  /** Whatever the keys of an object and the blanks in its text, obj_get asked for a key that needs no
      escapes recovers the first value stored under it, without the blanks around it, and nothing if
      there is none. */
  lemma ObjGetRecovers(s: string, p: nat, open: Blank, ms: LMembers, key: string)
    requires LaidMembers(ms) && At(s, p, Spaced(Object(open, ms))) && PlainKey(key)
    ensures var r := ObjGet(s, p, key);
            match FirstLaid(ms, key)
            case None => r.None? && Lookup(TreeMembers(ms), key).None?
            case Some(l) =>
              && Laid(l) && Lookup(TreeMembers(ms), key) == Some(Tree(l))
              && r.Some? && At(s, r.value.start, Spaced(l)) && s[r.value.start..r.value.end] == Spaced(l)
  {
    hide Spaced, ObjGet, At, LaidMembers, Laid, FirstLaid, PlainKey, Tree;
    ObjGetOfSpaced(s, p, open, ms, key);
    PlainLookup(TreeMembers(ms), key);
    FirstLaidTree(ms, key);
    if FirstLaid(ms, key).Some? {
      AtSlice(s, ObjGet(s, p, key).value.start, Spaced(FirstLaid(ms, key).value));
    }
  }

  // ----- array elements

  /** The spans are those of the elements, in order and without the blanks around them. */
  ghost predicate AreElems(s: string, spans: seq<Span>, es: LElems)
    decreases es
  {
    if es.NoElems? then spans == []
    else
      && spans != [] && At(s, spans[0].start, Spaced(es.value))
      && spans[0].end == spans[0].start + |Spaced(es.value)|
      && AreElems(s, spans[1..], es.rest)
  }

  lemma AreElemsStep(s: string, spans: seq<Span>, es: LElems)
    ensures es.NoElems? && spans == [] ==> AreElems(s, spans, es)
    ensures (&& es.NextElem? && spans != [] && At(s, spans[0].start, Spaced(es.value))
             && spans[0].end == spans[0].start + |Spaced(es.value)|
             && AreElems(s, spans[1..], es.rest)) ==> AreElems(s, spans, es)
  {
  }

  /** From the end of an element: what the rest of the iteration yields. */
  lemma {:induction false} ElementsFromSpaced(s: string, q: nat, d: nat, comma: Blank, es: LElems)
    requires q <= d <= |s| && SkipWs(s, q) == d
    requires if es.NoElems? then Is(s, d, ']')
             else Is(s, d, ',') && At(s, d + 1, comma) && ElemsAt(s, d + 1 + |comma|, es)
    ensures AreElems(s, ElementsFrom(s, q), es)
    decreases es
  {
    hide Spaced, SkipValue, At, SkipWs, ElementsFrom, SpacedElems, ElemsAt, AreElems, Laid, Ends;
    AreElemsStep(s, ElementsFrom(s, q), es);
    NoMoreElements(s, q, d);
    if es.NextElem? {
      var p := d + 1 + |comma|;
      ElemsParts(s, p, es);
      var x := ElemPlacesOf(p, es);
      SkipValueOfSpaced(s, p, es.value);
      WsBlank(s, d + 1, comma);
      ElementsFromSpaced(s, x.end, x.stop, es.comma, es.rest);
      NextElement(s, q, d, p, x.end);
    }
  }

  lemma NoMoreElements(s: string, q: nat, d: nat)
    requires q <= d <= |s| && SkipWs(s, q) == d
    ensures Is(s, d, ']') ==> ElementsFrom(s, q) == []
  {
  }

  lemma FirstElement(s: string, p: nat, v: nat, e: nat)
    requires Is(s, p, '[') && p < v < e <= |s| && SkipWs(s, p) == p && SkipWs(s, p + 1) == v && s[v] != ']'
    requires SkipValue(s, v) == Some(e)
    ensures Elements(s, p) == [Span(v, e)] + ElementsFrom(s, e)
    ensures Elements(s, p)[1..] == ElementsFrom(s, e)
  {
    hide SkipValue, ElementsFrom;
  }

  lemma NextElement(s: string, q: nat, d: nat, v: nat, e: nat)
    requires q <= d < v < e <= |s| && Is(s, d, ',') && SkipWs(s, q) == d && SkipWs(s, d + 1) == v
    requires SkipValue(s, v) == Some(e)
    ensures ElementsFrom(s, q) == [Span(v, e)] + ElementsFrom(s, e)
    ensures ElementsFrom(s, q)[1..] == ElementsFrom(s, e)
  {
  }

  /** Iterating over the text of an array with any blanks visits exactly its elements, in order. */
  lemma ElementsOfSpaced(s: string, p: nat, open: Blank, es: LElems)
    requires LaidElems(es) && At(s, p, Spaced(Array(open, es)))
    ensures AreElems(s, Elements(s, p), es)
  {
    hide Spaced, SkipValue, At, SkipWs, ElementsFrom, SpacedElems, AreElems, Laid, Ends, Elements, LaidElems;
    ArrayShape(open, es);
    OpenAt(s, p, "[", open, SpacedElems(es), "]");
    NoSpace(s, p);
    AreElemsStep(s, Elements(s, p), es);
    var v := p + 1 + |open|;
    WsBlank(s, p + 1, open);
    ElemsNone(s, v, es);
    if es.NextElem? {
      ElemsParts(s, v, es);
      var x := ElemPlacesOf(v, es);
      SkipValueOfSpaced(s, v, es.value);
      ElementsFromSpaced(s, x.end, x.stop, es.comma, es.rest);
      FirstElement(s, p, v, x.end);
    } else {
      NoSpace(s, v);
      NoElements(s, p, v);
    }
  }

  lemma ArrayShape(open: Blank, es: LElems)
    ensures Spaced(Array(open, es)) == "[" + (open + (SpacedElems(es) + "]"))
  {
  }

  lemma NoElements(s: string, p: nat, v: nat)
    requires Is(s, p, '[') && p < v <= |s| && SkipWs(s, p) == p && SkipWs(s, p + 1) == v && Is(s, v, ']')
    ensures Elements(s, p) == []
  {
  }

  // ----- strings

  /** Bytes the encoder writes as `\u00xx`, which the decoder does not read back. */
  predicate HexEscaped(c: char) {
    c < ' ' && c != BACKSPACE && c != FORM_FEED && c != '\n' && c != '\r' && c != '\t'
  }

  function CountHex(x: string): nat {
    if x == "" then 0 else (if HexEscaped(x[0]) then 1 else 0) + CountHex(x[1..])
  }

  lemma UnescapePlain(t: string)
    requires t != "" && t[0] != '\\'
    ensures Unescape(t) == [t[0]] + Unescape(t[1..])
  {
  }

  lemma UnescapeChar(c: char, rest: string)
    ensures HexEscaped(c) ==> |Unescape(EscapeChar(c) + rest)| == 5 + |Unescape(rest)|
    ensures !HexEscaped(c) ==> Unescape(EscapeChar(c) + rest) == [c] + Unescape(rest)
  {
    var e := EscapeChar(c);
    if HexEscaped(c) {
      EscapeCharShape(c);
      HexLength(e, rest);
    } else if |e| == 2 {
      assert (e + rest)[2..] == rest;
    } else {
      assert (e + rest)[1..] == rest;
    }
  }

  lemma HexLength(e: string, rest: string)
    requires |e| == 6 && e[0] == '\\' && forall i :: 2 <= i < 6 ==> e[i] != '\\'
    ensures |Unescape(e + rest)| == 5 + |Unescape(rest)|
  {
    var t := e + rest;
    assert t[2..][1..] == t[3..] && t[3..][1..] == t[4..];
    assert t[4..][1..] == t[5..] && t[5..][1..] == t[6..] && t[6..] == rest;
    assert Unescape(t) == [Unescaped(t[1])] + Unescape(t[2..]);
    UnescapePlain(t[2..]);
    UnescapePlain(t[3..]);
    UnescapePlain(t[4..]);
    UnescapePlain(t[5..]);
  }

  lemma {:induction false} UnescapeOfEscape(x: string)
    ensures |Unescape(Escape(x))| == |x| + 4 * CountHex(x)
    ensures CountHex(x) == 0 ==> Unescape(Escape(x)) == x
  {
    hide Unescape, EscapeChar, HexEscaped;
    UnescapeEmpty();
    if x != "" {
      UnescapeOfEscape(x[1..]);
      UnescapeChar(x[0], Escape(x[1..]));
      assert x == [x[0]] + x[1..];
    }
  }

  lemma UnescapeEmpty()
    ensures Unescape("") == ""
  {
  }

  lemma {:induction false} CountHexZero(x: string)
    ensures CountHex(x) == 0 <==> forall i :: 0 <= i < |x| ==> !HexEscaped(x[i])
  {
    if x != "" {
      CountHexZero(x[1..]);
    }
  }

  lemma HexStart(c: char, rest: string)
    requires HexEscaped(c)
    ensures var t := Unescape(EscapeChar(c) + rest); t != "" && t[0] == 'u'
  {
    EscapeCharShape(c);
    var t := EscapeChar(c) + rest;
    assert t[0] == '\\' && t[1] == 'u';
  }

  lemma ConsPrefix(c: char, x: string, y: string)
    ensures [c] + x <= [c] + y <==> x <= y
  {
    assert ([c] + x)[1..] == x && ([c] + y)[1..] == y;
  }

  /** A string with a byte written as `\u00xx` is not even the beginning of what is read back. */
  lemma {:induction false} HexNoPrefix(x: string)
    requires CountHex(x) > 0
    ensures !(x <= Unescape(Escape(x)))
  {
    hide Unescape, EscapeChar, HexEscaped;
    var rest := Escape(x[1..]);
    UnescapeChar(x[0], rest);
    if HexEscaped(x[0]) {
      HexStart(x[0], rest);
      SmallChar(x[0]);
    } else {
      HexNoPrefix(x[1..]);
      ConsPrefix(x[0], x[1..], Unescape(rest));
      assert x == [x[0]] + x[1..];
    }
  }

  lemma SmallChar(c: char)
    requires HexEscaped(c)
    ensures c != 'u'
  {
  }

  /** An encoded string parsed into a buffer of `size` bytes comes back as it was if and only if it
      fits with its NUL and none of its bytes was written as `\u00xx`. */
  lemma StringRoundTrip(x: string, size: nat)
    requires size > 0
    ensures var val := Quoted(x);
            && |val| >= 2 && val[0] == '"' && val[|val| - 1] == '"'
            && (Cut(Unescape(val[1..|val| - 1]), size) == x <==>
                |x| < size && forall i :: 0 <= i < |x| ==> !HexEscaped(x[i]))
  {
    assert Quoted(x)[1..|Quoted(x)| - 1] == Escape(x);
    UnescapeOfEscape(x);
    CountHexZero(x);
    if CountHex(x) > 0 {
      HexNoPrefix(x);
    }
  }

  // ----- integers and booleans

  lemma DigitRoundTrip(n: nat)
    requires n < 10
    ensures IsDigit(Digit(n)) && DigitValue(Digit(n)) == n
  {
  }

  lemma {:induction false} NumberOfDigits(n: nat)
    ensures AllDigits(Digits(n)) && Number(Digits(n)) == n
  {
    DigitsAreDigits(n);
    DigitRoundTrip(n % 10);
    hide Digit, DigitValue;
    if n >= 10 {
      NumberOfDigits(n / 10);
      assert Digits(n)[..|Digits(n)| - 1] == Digits(n / 10);
    } else {
      assert Digits(n)[..0] == "";
    }
  }

  function Pow10(k: nat): nat {
    if k == 0 then 1 else 10 * Pow10(k - 1)
  }

  lemma {:induction false} DigitsLength(n: nat, k: nat)
    requires k >= 1 && n < Pow10(k)
    ensures |Digits(n)| <= k
    decreases k
  {
    if n >= 10 {
      DigitsLength(n / 10, k - 1);
    }
  }

  lemma Pow19()
    ensures Pow10(19) == 10_000_000_000_000_000_000
  {
    assert Pow10(4) == 10_000;
    assert Pow10(8) == 100_000_000;
    assert Pow10(12) == 1_000_000_000_000;
    assert Pow10(16) == 10_000_000_000_000_000;
  }

  lemma {:induction false} DigitsEndOfAll(t: string, p: nat)
    requires p <= |t| && forall i :: p <= i < |t| ==> IsDigit(t[i])
    ensures DigitsEnd(t, p) == |t|
    decreases |t| - p
  {
    if p < |t| {
      DigitsEndOfAll(t, p + 1);
    }
  }

  /** Every 64-bit integer is read back as it was written. */
  lemma IntRoundTrip(n: int)
    requires INT_MIN <= n <= INT_MAX
    ensures ParseInt(Decimal(n)) == (true, Some(n))
  {
    var m: nat := if n < 0 then -n else n;
    var d, t := Digits(m), Decimal(n);
    NumberOfDigits(m);
    Pow19();
    DigitsLength(m, 19);
    hide Digits, Number, Pow10;
    ReadDecimal(t, if n < 0 then 1 else 0, d);
  }

  /** strtoll on an optional minus sign and digits. */
  lemma ReadDecimal(t: string, q: nat, d: string)
    requires AllDigits(d) && d != "" && q <= 1 && |t| == q + |d| && t[q..] == d && (q == 1 ==> t[0] == '-')
    ensures var n: int := Number(d); Strtoll(t) == (Clamp(if q == 1 then -n else n), |t|)
  {
    hide Number, Clamp;
    assert forall i :: q <= i < |t| ==> t[i] == d[i - q];
    assert forall i :: q <= i < |t| ==> IsDigit(t[i]);
    DigitsEndOfAll(t, q);
    NoSpace(t, 0);
    assert t[q..|t|] == d;
  }

  lemma BoolRoundTrip(b: bool)
    ensures ParseBool(Text(Bool(b))) == Some(b)
  {
  }
}
