/**
 The plugin channel of src/json/json_rpc.c: newline framing in both directions over byte
 streams that arrive in arbitrary pieces, and the JSON-RPC requests sent through it.
 */
module Framing {
  import opened Options
  import opened Texts
  import opened JsonText
  import opened JsonLayout
  import opened JsonEncode
  import opened JsonDecode
  import opened JsonRecover

  const MAX_READ: nat := 4096

  // ----- framing

  predicate OneLine(t: string) {
    '\n' !in t
  }

  ghost predicate Lines(ls: seq<string>) {
    forall i :: 0 <= i < |ls| ==> OneLine(ls[i])
  }

  /** Each message followed by a newline. */
  function Framed(ls: seq<string>): string {
    if ls == [] then "" else Framed(ls[..|ls| - 1]) + ls[|ls| - 1] + "\n"
  }

  /** The first newline, or the length when there is none. */
  function NewlineAt(t: string): (i: nat)
    ensures i <= |t| && OneLine(t[..i])
    ensures i < |t| ==> t[i] == '\n'
    ensures i == |t| <==> OneLine(t)
  {
    if t == "" then 0 else if t[0] == '\n' then 0 else 1 + NewlineAt(t[1..])
  }

  lemma {:induction false} FramedConcat(a: seq<string>, b: seq<string>)
    ensures Framed(a + b) == Framed(a) + Framed(b)
  {
    if b == [] {
      assert a + b == a;
    } else {
      var n := |b| - 1;
      assert (a + b)[..|a + b| - 1] == a + b[..n];
      FramedConcat(a, b[..n]);
    }
  }

  lemma FramedOne(l: string)
    ensures Framed([l]) == l + "\n"
  {
    assert [l][..0] == [];
  }

  lemma CharAt(a: string, x: string, k: nat)
    requires k <= |a|
    ensures (a + "\n" + x)[k] == if k < |a| then a[k] else '\n'
  {
  }

  /** A stream splits into its first line in only one way. */
  lemma FirstLine(a: string, x: string, b: string, y: string)
    requires OneLine(a) && OneLine(b)
    requires a + "\n" + x <= b + "\n" + y || b + "\n" + y <= a + "\n" + x
    ensures a == b
  {
    var s, t := a + "\n" + x, b + "\n" + y;
    var k := if |a| < |b| then |a| else |b|;
    CharAt(a, x, k);
    CharAt(b, y, k);
    assert s[k] == t[k];
    assert a == s[..|a|] && b == t[..|b|];
  }

  lemma SameHead(a: string, x: string, y: string)
    ensures a + x <= a + y <==> x <= y
  {
    assert (a + x)[|a|..] == x && (a + y)[|a|..] == y;
    if x <= y {
      assert a + y == a + x + y[|x|..];
    }
  }

  lemma FramedCons(ls: seq<string>)
    requires ls != []
    ensures Framed(ls) == ls[0] + "\n" + Framed(ls[1..])
  {
    assert ls == [ls[0]] + ls[1..];
    FramedConcat([ls[0]], ls[1..]);
    FramedOne(ls[0]);
  }

  /** However a framed stream is cut: if the lines delivered and the bytes left over are the
      stream so far, the lines are the first messages, and all of them once it has all come. */
  lemma {:induction false} LinesAreMessages(msgs: seq<string>, ls: seq<string>, rest: string)
    requires Lines(msgs) && Lines(ls) && Framed(ls) + rest <= Framed(msgs)
    ensures ls <= msgs
    ensures Framed(ls) + rest == Framed(msgs) && OneLine(rest) ==> ls == msgs && rest == ""
    decreases |ls|
  {
    if ls == [] {
      EmptyFrame(msgs, rest);
    } else {
      FramedCons(ls);
      StreamNotEmpty(ls, rest, msgs);
      FramedCons(msgs);
      var x, y := Framed(ls[1..]) + rest, Framed(msgs[1..]);
      hide Framed;
      assert Framed(ls) + rest == ls[0] + "\n" + x;
      FirstLine(ls[0], x, msgs[0], y);
      SameHead(ls[0] + "\n", x, y);
      LinesAreMessages(msgs[1..], ls[1..], rest);
      assert ls == [ls[0]] + ls[1..] && msgs == [msgs[0]] + msgs[1..];
      CancelHead(ls[0] + "\n", x, y);
    }
  }

  lemma CancelHead(a: string, x: string, y: string)
    ensures a + x == a + y ==> x == y
  {
    assert (a + x)[|a|..] == x && (a + y)[|a|..] == y;
  }

  lemma StreamNotEmpty(ls: seq<string>, rest: string, msgs: seq<string>)
    requires ls != [] && Framed(ls) + rest <= Framed(msgs)
    ensures msgs != []
  {
    FramedCons(ls);
  }

  lemma EmptyFrame(msgs: seq<string>, rest: string)
    requires Lines(msgs)
    ensures Framed([]) + rest == Framed(msgs) && OneLine(rest) ==> msgs == [] && rest == ""
  {
    assert Framed([]) + rest == rest;
    if msgs != [] {
      FramedCons(msgs);
      assert Framed(msgs)[|msgs[0]|] == '\n';
    }
  }

  // ----- the encoder never emits a raw newline

  ghost predicate Printable(t: string) {
    forall i :: 0 <= i < |t| ==> t[i] >= ' '
  }

  lemma EscapeCharPrintable(c: char)
    ensures Printable(EscapeChar(c))
  {
    if c < ' ' {
      HexPrintable(c as nat / 16);
      HexPrintable(c as nat % 16);
    }
  }

  lemma HexPrintable(n: nat)
    requires n < 16
    ensures HexDigit(n) >= ' '
  {
  }

  lemma PrintableConcat(a: string, b: string)
    requires Printable(a) && Printable(b)
    ensures Printable(a + b)
  {
  }

  lemma {:induction false} EscapePrintable(x: string)
    ensures Printable(Escape(x))
  {
    hide EscapeChar;
    if x != "" {
      EscapeCharPrintable(x[0]);
      EscapePrintable(x[1..]);
    }
  }

  lemma QuotedPrintable(x: string)
    ensures Printable(Quoted(x))
  {
    EscapePrintable(x);
  }

  lemma {:induction false} TextPrintable(v: Json)
    ensures Printable(Text(v))
    decreases v, 0
  {
    hide Quoted, MembersText, ElemsText;
    match v
    case Obj(ms) => MembersPrintable(ms);
    case Arr(es) => ElemsPrintable(es);
    case Str(x) => QuotedPrintable(x);
    case _ =>
      ScalarText(v);
      ScalarPrintable(Text(v));
  }

  lemma ScalarPrintable(t: string)
    requires IsScalarText(t)
    ensures Printable(t)
  {
    forall i | 0 <= i < |t|
      ensures t[i] >= ' '
    {
      assert ScalarChar(t[i]);
    }
  }

  lemma {:induction false} MembersPrintable(ms: Members)
    ensures Printable(MembersText(ms))
    decreases ms, 1
  {
    hide Quoted, Text;
    if ms.Member? {
      QuotedPrintable(ms.key);
      TextPrintable(ms.value);
      MembersPrintable(ms.rest);
      PrintableConcat(Quoted(ms.key), ":");
      PrintableConcat(Quoted(ms.key) + ":", Text(ms.value));
      PrintableConcat(",", MembersText(ms.rest));
    }
  }

  lemma {:induction false} ElemsPrintable(es: Elems)
    ensures Printable(ElemsText(es))
    decreases es, 1
  {
    hide Text;
    if es.Elem? {
      TextPrintable(es.value);
      ElemsPrintable(es.rest);
      PrintableConcat(",", ElemsText(es.rest));
    }
  }

  /** The text of any value is a single line, so it can be framed. */
  lemma TextIsOneLine(v: Json)
    ensures OneLine(Text(v))
  {
    TextPrintable(v);
  }

  // ----- requests

  function Request(id: int, name: string, params: Json): Json {
    var call := Member("method", Str(name), Member("params", params, NoMember));
    Obj(Member("jsonrpc", Str("2.0"), Member("id", Int(id), call)))
  }

  lemma AtomTexts(id: int, x: string)
    ensures Text(Int(id)) == Decimal(id) && Text(Str(x)) == Quoted(x)
  {
  }

  lemma RequestFrame(ms: Members)
    ensures Separated("") == "" && Separated("{") == "{" && Text(Obj(NoMember)) == "{}"
    ensures Text(Obj(ms)) == AfterMembers("{", ms) + "}"
  {
    assert ms.NoMember? ==> "{" + MembersText(ms) + "}" == "{}";
  }

  lemma NoMoreMembers(b: string)
    ensures AfterMembers(b, NoMember) == b
  {
  }

  /** build_request: the parameters are pasted in as text; none at all means an empty object. */
  method BuildRequest(name: string, params: string, ghost tree: Json, id: int) returns (req: Buffer)
    requires params == Text(tree) || (params == "" && tree == Obj(NoMember))
    ensures fresh(req) && fresh(req.buf) && req.Valid() && req.Contents() == Text(Request(id, name, tree))
  {
    hide AfterMembers, Separated, Quoted, Text, Decimal;
    ghost var m1 := Request(id, name, tree).members;
    ghost var m2 := m1.rest;
    ghost var m3 := m2.rest;
    ghost var m4 := m3.rest;
    RequestFrame(m1);
    req := new Buffer();
    req.ObjStart();
    assert req.Contents() == "{";
    PutString(req, "jsonrpc", "2.0", m1);
    PutInt(req, "id", id, m2);
    PutString(req, "method", name, m3);
    PutRaw(req, "params", params, m4);
    NoMoreMembers(req.Contents());
    req.ObjEnd();
  }

  /** A key call and a value call add one member. */
  method PutString(req: Buffer, key: string, x: string, ghost ms: Members)
    requires req.Valid() && ms.Member? && ms.key == key && ms.value == Str(x)
    modifies req, req.buf
    ensures req.Valid() && (req.buf == old(req.buf) || fresh(req.buf))
    ensures AfterMembers(req.Contents(), ms.rest) == AfterMembers(old(req.Contents()), ms)
  {
    hide AfterMembers, Separated, Quoted, Text;
    AtomTexts(0, x);
    MemberStep(req.Contents(), ms);
    req.Key(key);
    req.StringValue(x);
  }

  method PutInt(req: Buffer, key: string, n: int, ghost ms: Members)
    requires req.Valid() && ms.Member? && ms.key == key && ms.value == Int(n)
    modifies req, req.buf
    ensures req.Valid() && (req.buf == old(req.buf) || fresh(req.buf))
    ensures AfterMembers(req.Contents(), ms.rest) == AfterMembers(old(req.Contents()), ms)
  {
    hide AfterMembers, Separated, Quoted, Text, Decimal;
    AtomTexts(n, "");
    MemberStep(req.Contents(), ms);
    req.Key(key);
    req.Scalar(Decimal(n));
  }

  method PutRaw(req: Buffer, key: string, params: string, ghost ms: Members)
    requires req.Valid() && ms.Member? && ms.key == key
    requires params == Text(ms.value) || (params == "" && ms.value == Obj(NoMember))
    modifies req, req.buf
    ensures req.Valid() && (req.buf == old(req.buf) || fresh(req.buf))
    ensures AfterMembers(req.Contents(), ms.rest) == AfterMembers(old(req.Contents()), ms)
  {
    hide AfterMembers, Separated, Quoted, Text;
    RequestFrame(NoMember);
    TextEnds(ms.value);
    MemberStep(req.Contents(), ms);
    req.Key(key);
    ghost var keyed := req.Contents();
    if params != "" {
      req.AppendRaw(params);
    } else {
      req.ObjStart();
      req.ObjEnd();
      assert keyed + "{" + "}" == keyed + "{}";
    }
  }

  /** The id that try_recv_any reads from a line: -1 unless there is one, and whatever strtoll
      makes of it even when the number is not the whole value. */
  function LineId(line: string): int {
    match ObjGet(line, 0, "id")
    case None => -1
    case Some(span) =>
      match ParseInt(line[span.start..span.end]).1
      case None => -1
      case Some(n) => n
  }

  lemma PlainId()
    ensures Escape("id") == "id" && Escape("jsonrpc") == "jsonrpc"
  {
    EscapeFixesPlain("id");
    EscapeFixesPlain("jsonrpc");
  }

  /** A line that starts with the text of an object, with any blanks, is read with the 64-bit id under
      its first "id" key. */
  lemma LineIdOf(s: string, open: Blank, ms: LMembers, id: int)
    requires LaidMembers(ms) && At(s, 0, Spaced(Object(open, ms)))
    requires FirstWith(TreeMembers(ms), "id") == Some(Int(id)) && INT_MIN <= id <= INT_MAX
    ensures LineId(s) == id
  {
    hide At, ParseInt, ObjGet, Spaced, LaidMembers, FirstLaid;
    ObjGetOfSpaced(s, 0, open, ms, "id");
    FirstLaidTree(ms, "id");
    var l := FirstLaid(ms, "id").value;
    LeafOf(l, Int(id));
    AtSlice(s, ObjGet(s, 0, "id").value.start, Spaced(l));
    IntRoundTrip(id);
  }

  /** In particular a line that starts with its canonical text. */
  lemma LineIdOfText(s: string, ms: Members, id: int)
    requires At(s, 0, Text(Obj(ms))) && FirstWith(ms, "id") == Some(Int(id)) && INT_MIN <= id <= INT_MAX
    ensures LineId(s) == id
  {
    hide Text, Spaced, At, LineId, FirstWith;
    CompactIsText(Obj(ms));
    CompactMembersText(ms);
    LineIdOf(s, "", CompactMembers(ms), id);
  }

  /** Every request carries its id through encoding, framing and decoding. */
  lemma RequestRoundTrip(id: int, name: string, params: Json)
    requires INT_MIN <= id <= INT_MAX
    ensures LineId(Text(Request(id, name, params))) == id
    ensures OneLine(Text(Request(id, name, params)))
  {
    hide LineId, Escape;
    var s := Text(Request(id, name, params));
    WholeText(s);
    PlainId();
    var ms := Request(id, name, params).members;
    hide Text;
    assert FirstWith(ms, "id") == FirstWith(ms.rest, "id") == Some(Int(id));
    LineIdOfText(s, ms, id);
    TextIsOneLine(Request(id, name, params));
  }
}
