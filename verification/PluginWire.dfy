/**
 The bytes under way from a plugin to its host, seen as lines.  A force_sync throws away a
 prefix of these bytes (src/json/json_rpc.c:319-356) without looking for a line's end.
 */
module PluginWire {
  import opened Texts
  import opened JsonText
  import opened JsonRecover
  import opened Framing

  /** A line from the plugin.  `asOf` is the id of the host's next request when the plugin wrote
      it; it is not whole when a discard took its beginning. */
  datatype Arrival = Arrival(text: string, asOf: int, whole: bool)

  /** The lines as bytes. */
  function Wire(ls: seq<Arrival>): string {
    if ls == [] then "" else ls[0].text + "\n" + Wire(ls[1..])
  }

  /** What is assumed of the plugin: it answers only ids it was sent. */
  predicate Honest(a: Arrival) {
    OneLine(a.text) && (a.whole ==> LineId(a.text) < a.asOf)
  }

  ghost predicate AllHonest(ls: seq<Arrival>, next: int) {
    forall i :: 0 <= i < |ls| ==> Honest(ls[i]) && ls[i].asOf <= next
  }

  ghost predicate AllWhole(ls: seq<Arrival>) {
    forall i :: 0 <= i < |ls| ==> ls[i].whole
  }

  /** The unread bytes are these lines; as long as every discard ended with a line, all are whole. */
  ghost predicate WireOk(ls: seq<Arrival>, bytes: string, next: int, clean: bool) {
    bytes == Wire(ls) && AllHonest(ls, next) && (clean ==> AllWhole(ls))
  }

  lemma {:induction false} WireSnoc(ls: seq<Arrival>, a: Arrival)
    ensures Wire(ls + [a]) == Wire(ls) + (a.text + "\n")
  {
    if ls == [] {
      assert ls + [a] == [a] && [a][1..] == [];
      assert Wire([a]) == a.text + "\n" + Wire([]);
    } else {
      assert (ls + [a])[1..] == ls[1..] + [a];
      WireSnoc(ls[1..], a);
      assert Wire(ls + [a]) == ls[0].text + "\n" + (Wire(ls[1..]) + (a.text + "\n"));
    }
  }

  lemma Arrives(ls: seq<Arrival>, a: Arrival, rx: string, pipe: string, next: int, clean: bool)
    requires WireOk(ls, rx + pipe, next, clean) && Honest(a) && a.whole && a.asOf == next
    ensures WireOk(ls + [a], rx + (pipe + a.text + "\n"), next, clean)
  {
    WireSnoc(ls, a);
    hide Wire, Honest;
    assert rx + (pipe + a.text + "\n") == rx + pipe + (a.text + "\n");
  }

  lemma Later(ls: seq<Arrival>, bytes: string, next: int, clean: bool)
    requires WireOk(ls, bytes, next, clean)
    ensures WireOk(ls, bytes, next + 1, clean)
  {
  }

  /** The line the host reads is the first one under way. */
  lemma Delivered(ls: seq<Arrival>, bytes: string, next: int, clean: bool, text: string, rest: string)
    requires WireOk(ls, bytes, next, clean) && bytes == text + "\n" + rest && OneLine(text)
    ensures ls != [] && ls[0].text == text && Honest(ls[0]) && ls[0].asOf <= next && (clean ==> ls[0].whole)
    ensures WireOk(ls[1..], rest, next, clean)
  {
    hide LineId;
    assert ls != [];
    FirstLine(text, rest, ls[0].text, Wire(ls[1..]));
    CancelHead(text + "\n", rest, Wire(ls[1..]));
  }

  // ----- discarding

  /** The lines left when the first d bytes are gone. */
  function After(ls: seq<Arrival>, d: nat): seq<Arrival>
    decreases |ls|
  {
    if ls == [] || d == 0 then ls
    else if d <= |ls[0].text| then [Arrival(ls[0].text[d..], ls[0].asOf, false)] + ls[1..]
    else After(ls[1..], d - |ls[0].text| - 1)
  }

  lemma DropHead(t: string, w: string, d: nat)
    requires d <= |t| + 1 + |w|
    ensures (t + "\n" + w)[d..] == if d <= |t| then t[d..] + "\n" + w else w[d - |t| - 1..]
  {
  }

  lemma {:induction false} AfterWire(ls: seq<Arrival>, d: nat)
    requires d <= |Wire(ls)|
    ensures Wire(After(ls, d)) == Wire(ls)[d..]
    decreases |ls|
  {
    if ls != [] {
      DropHead(ls[0].text, Wire(ls[1..]), d);
      if d > |ls[0].text| {
        AfterWire(ls[1..], d - |ls[0].text| - 1);
      } else if d > 0 {
        var cut := Arrival(ls[0].text[d..], ls[0].asOf, false);
        assert ([cut] + ls[1..])[1..] == ls[1..];
      }
    }
  }

  lemma {:induction false} AfterHonest(ls: seq<Arrival>, d: nat, next: int)
    requires AllHonest(ls, next)
    ensures AllHonest(After(ls, d), next)
    decreases |ls|
  {
    hide LineId;
    if ls != [] && d > |ls[0].text| {
      AfterHonest(ls[1..], d - |ls[0].text| - 1, next);
    }
  }

  /** A discard leaves whole lines only exactly when the last byte it took was a newline. */
  lemma {:induction false} WholeAfter(ls: seq<Arrival>, d: nat, next: int)
    requires AllHonest(ls, next) && AllWhole(ls) && d <= |Wire(ls)|
    ensures AllWhole(After(ls, d)) <==> d == 0 || Wire(ls)[d - 1] == '\n'
    decreases |ls|
  {
    hide LineId;
    if ls != [] && d > 0 {
      var t, w := ls[0].text, Wire(ls[1..]);
      assert Wire(ls)[d - 1] == if d <= |t| then t[d - 1] else if d == |t| + 1 then '\n' else w[d - |t| - 2];
      if d > |t| {
        WholeAfter(ls[1..], d - |t| - 1, next);
      } else {
        assert Honest(ls[0]);
        assert !After(ls, d)[0].whole;
      }
    }
  }

  /** The lines under way after a discard of the buffer and a part of the pipe. */
  lemma Discarded(ls: seq<Arrival>, rx: string, pipe: string, left: string, next: int, clean: bool)
    requires WireOk(ls, rx + pipe, next, clean) && |left| <= |pipe| && left == pipe[|pipe| - |left|..]
    ensures var d := |rx| + |pipe| - |left|;
            && d <= |rx + pipe|
            && WireOk(After(ls, d), left, next, clean && (d == 0 || (rx + pipe)[d - 1] == '\n'))
  {
    var d := |rx| + |pipe| - |left|;
    AfterWire(ls, d);
    AfterHonest(ls, d, next);
    if clean {
      WholeAfter(ls, d, next);
    }
    hide Wire, After;
    assert (rx + pipe)[d..] == left;
  }

  // ----- why the boundary matters

  function IdOnly(id: int): Json {
    Obj(Member("id", Int(id), NoMember))
  }

  /** An honest reply to an old request, with an object of the plugin's own inside. */
  function Nested(id: int, inner: int): Json {
    Obj(Member("id", Int(id), Member("result", IdOnly(inner), NoMember)))
  }

  /** What stands before the inner object. */
  function Head(id: int): string {
    "{" + (Quoted("id") + ":" + Decimal(id) + ("," + (Quoted("result") + ":")))
  }

  /** What is left when a discard takes just that. */
  function Torn(next: int): Arrival {
    Arrival(Text(IdOnly(next)) + "}", next, false)
  }

  /** A discard that stops inside this reply to the latest request leaves a fragment that reads
      as the reply to the very next one. */
  lemma FragmentMimicsReply(next: int)
    requires INT_MIN < next <= INT_MAX
    ensures var a := Arrival(Text(Nested(next - 1, next)), next, true);
            var d := |Head(next - 1)|;
            && Honest(a) && 0 < d < |a.text| && d <= 64
            && After([a], d) == [Torn(next)] && a.text[d..] == Torn(next).text && LineId(Torn(next).text) == next
  {
    hide Text, Quoted, Decimal, LineId, FirstWith, After, Nested, IdOnly, Honest;
    var a := Arrival(Text(Nested(next - 1, next)), next, true);
    var inner := Text(IdOnly(next));
    NestedText(next - 1, next);
    HeadLength(next - 1);
    ReplyIsHonest(next);
    assert a.text == Head(next - 1) + (inner + "}");
    assert a.text[|Head(next - 1)|..] == inner + "}";
    AfterOne(a, |Head(next - 1)|);
    FragmentId(next);
  }

  lemma AfterOne(a: Arrival, d: nat)
    requires 0 < d <= |a.text|
    ensures After([a], d) == [Arrival(a.text[d..], a.asOf, false)]
  {
    assert [a][1..] == [];
  }

  lemma HeadLength(n: int)
    requires INT_MIN <= n <= INT_MAX
    ensures |Decimal(n)| <= 20 && |Quoted("id")| == 4 && |Quoted("result")| == 8
  {
    hide Pow10;
    Pow19();
    DigitsLength(if n < 0 then -n else n, 19);
    EscapeFixesPlain("id");
    EscapeFixesPlain("result");
  }

  lemma NestedText(id: int, inner: int)
    ensures Text(Nested(id, inner)) ==
            "{" + (Quoted("id") + ":" + Decimal(id) + ("," + (Quoted("result") + ":"))) + (Text(IdOnly(inner)) + "}")
  {
    hide Quoted, Decimal;
    var q, n, r, t := Quoted("id"), Decimal(id), Quoted("result"), Text(IdOnly(inner));
    var tail := Member("result", IdOnly(inner), NoMember);
    assert MembersText(tail) == r + ":" + t + "";
    assert MembersText(Member("id", Int(id), tail)) == q + ":" + n + ("," + MembersText(tail));
    Shape(q, n, r, t);
  }

  lemma Shape(q: string, n: string, r: string, t: string)
    ensures "{" + (q + ":" + n + ("," + (r + ":" + t + ""))) + "}" ==
            "{" + (q + ":" + n + ("," + (r + ":"))) + (t + "}")
  {
  }

  lemma ReplyIsHonest(next: int)
    requires INT_MIN < next <= INT_MAX
    ensures Honest(Arrival(Text(Nested(next - 1, next)), next, true))
  {
    var v := Nested(next - 1, next);
    hide Text, LineId, Escape;
    PlainId();
    WholeText(Text(v));
    TextIsOneLine(v);
    LineIdOfText(Text(v), v.members, next - 1);
  }

  lemma FragmentId(next: int)
    requires INT_MIN < next <= INT_MAX
    ensures LineId(Text(IdOnly(next)) + "}") == next
  {
    var v := IdOnly(next);
    hide Text, LineId, Escape;
    PlainId();
    AtSelf("", Text(v), "}");
    assert "" + Text(v) + "}" == Text(v) + "}";
    LineIdOfText(Text(v) + "}", v.members, next);
  }
}
