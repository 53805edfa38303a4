/**
 Texts of JSON values as other programs write them: with blanks between the tokens (section 2 of
 RFC 8259).  A layout is a value together with the blanks; the canonical text is the layout without
 any.  Behind a number, true, false or null there is none, because the decoder would take it in.
 */
module JsonLayout {
  import opened JsonText

  type Blank = b: string | forall i :: 0 <= i < |b| ==> b[i] == ' ' || b[i] == '\t' || b[i] == '\n' || b[i] == '\r'

  datatype Layout =
    | Object(open: Blank, members: LMembers)
    | Array(open: Blank, elems: LElems)
    | Leaf(value: Json)

  datatype LMembers =
    | NoMore
    | Next(key: string, colon: Blank, before: Blank, value: Layout, behind: Blank, comma: Blank, rest: LMembers)

  datatype LElems =
    | NoElems
    | NextElem(value: Layout, behind: Blank, comma: Blank, rest: LElems)

  // ----- the value and the text of a layout

  function Tree(l: Layout): Json {
    match l
    case Object(_, ms) => Obj(TreeMembers(ms))
    case Array(_, es) => Arr(TreeElems(es))
    case Leaf(v) => v
  }

  function TreeMembers(ms: LMembers): Members {
    match ms
    case NoMore => NoMember
    case Next(key, _, _, value, _, _, rest) => Member(key, Tree(value), TreeMembers(rest))
  }

  function TreeElems(es: LElems): Elems {
    match es
    case NoElems => NoElem
    case NextElem(value, _, _, rest) => Elem(Tree(value), TreeElems(rest))
  }

  function Spaced(l: Layout): string
    decreases l, 0
  {
    match l
    case Object(open, ms) => "{" + (open + (SpacedMembers(ms) + "}"))
    case Array(open, es) => "[" + (open + (SpacedElems(es) + "]"))
    case Leaf(v) => Text(v)
  }

  function SpacedMembers(ms: LMembers): string
    decreases ms, 0
  {
    match ms
    case NoMore => ""
    case Next(key, colon, before, value, behind, comma, rest) =>
      Quoted(key) + (colon + (":" + (before + (Spaced(value) + (behind + Tail(comma, rest))))))
  }

  /** What stands behind a member and its blanks. */
  function Tail(comma: Blank, rest: LMembers): string
    decreases rest, 1
  {
    if rest.NoMore? then "" else "," + (comma + SpacedMembers(rest))
  }

  function SpacedElems(es: LElems): string
    decreases es, 0
  {
    match es
    case NoElems => ""
    case NextElem(value, behind, comma, rest) => Spaced(value) + (behind + ElemTail(comma, rest))
  }

  function ElemTail(comma: Blank, rest: LElems): string
    decreases rest, 1
  {
    if rest.NoElems? then "" else "," + (comma + SpacedElems(rest))
  }

  /** A number, true, false or null, which ends only at a delimiter. */
  predicate Bare(l: Layout) {
    l.Leaf? && !l.value.Str?
  }

  predicate Laid(l: Layout) {
    match l
    case Object(_, ms) => LaidMembers(ms)
    case Array(_, es) => LaidElems(es)
    case Leaf(v) => !v.Obj? && !v.Arr?
  }

  predicate LaidMembers(ms: LMembers) {
    ms.Next? ==> Laid(ms.value) && (Bare(ms.value) ==> ms.behind == "") && LaidMembers(ms.rest)
  }

  predicate LaidElems(es: LElems) {
    es.NextElem? ==> Laid(es.value) && (Bare(es.value) ==> es.behind == "") && LaidElems(es.rest)
  }

  // ----- the canonical text is a layout

  function Compact(v: Json): Layout {
    match v
    case Obj(ms) => Object("", CompactMembers(ms))
    case Arr(es) => Array("", CompactElems(es))
    case _ => Leaf(v)
  }

  function CompactMembers(ms: Members): LMembers {
    match ms
    case NoMember => NoMore
    case Member(key, value, rest) => Next(key, "", "", Compact(value), "", "", CompactMembers(rest))
  }

  function CompactElems(es: Elems): LElems {
    match es
    case NoElem => NoElems
    case Elem(value, rest) => NextElem(Compact(value), "", "", CompactElems(rest))
  }

  lemma {:induction false} CompactIsText(v: Json)
    ensures Laid(Compact(v)) && Tree(Compact(v)) == v && Spaced(Compact(v)) == Text(v)
    decreases v, 0
  {
    hide Quoted, Decimal;
    match v
    case Obj(ms) =>
      CompactMembersText(ms);
      assert "{" + ("" + (MembersText(ms) + "}")) == "{" + MembersText(ms) + "}";
    case Arr(es) =>
      CompactElemsText(es);
      assert "[" + ("" + (ElemsText(es) + "]")) == "[" + ElemsText(es) + "]";
    case _ =>
  }

  lemma {:induction false} CompactMembersText(ms: Members)
    ensures var c := CompactMembers(ms); LaidMembers(c) && TreeMembers(c) == ms && SpacedMembers(c) == MembersText(ms)
    ensures CompactMembers(ms).NoMore? <==> ms.NoMember?
    decreases ms, 1
  {
    hide Quoted, Text;
    if ms.Member? {
      CompactIsText(ms.value);
      CompactMembersText(ms.rest);
      Joined(Quoted(ms.key), Text(ms.value), MembersText(ms.rest));
    }
  }

  lemma Joined(q: string, t: string, m: string)
    ensures q + ("" + (":" + ("" + (t + ("" + ""))))) == q + ":" + t + ""
    ensures q + ("" + (":" + ("" + (t + ("" + ("," + ("" + m))))))) == q + ":" + t + ("," + m)
    ensures t + ("" + "") == t + "" && t + ("" + ("," + ("" + m))) == t + ("," + m)
  {
  }

  lemma {:induction false} CompactElemsText(es: Elems)
    ensures var c := CompactElems(es); LaidElems(c) && TreeElems(c) == es && SpacedElems(c) == ElemsText(es)
    ensures CompactElems(es).NoElems? <==> es.NoElem?
    decreases es, 1
  {
    hide Text;
    if es.Elem? {
      CompactIsText(es.value);
      CompactElemsText(es.rest);
      Joined("", Text(es.value), ElemsText(es.rest));
    }
  }

  // ----- facts about the text

  lemma SpacedStarts(l: Layout)
    requires Laid(l)
    ensures var t := Spaced(l);
            && t != "" && !IsSpace(t[0])
            && (t[0] == '{' <==> l.Object?) && (t[0] == '[' <==> l.Array?) && (t[0] == '"' <==> l.Leaf? && l.value.Str?)
            && t[0] != '}' && t[0] != ']' && t[0] != ','
  {
    if l.Leaf? {
      TextEnds(l.value);
    }
  }

  /** A value that is neither object nor array has no blanks in its text. */
  lemma LeafOf(l: Layout, v: Json)
    requires Laid(l) && Tree(l) == v && !v.Obj? && !v.Arr?
    ensures Spaced(l) == Text(v)
  {
  }
}
