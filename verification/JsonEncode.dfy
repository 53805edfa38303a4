/**
 The JSON encoder of src/json/json.c:7-167: a growing byte buffer and one call per token.
 The encoder keeps no nesting state; it decides on a comma by looking at the last byte
 written.  Emitting any tree through its calls gives exactly the canonical text.
 */
module JsonEncode {
  import opened JsonText

  predicate NeedsComma(b: string) {
    b != "" && !OpensOrSeparates(b[|b| - 1])
  }

  /** The buffer once the comma decision has been taken. */
  function Separated(b: string): string {
    if NeedsComma(b) then b + "," else b
  }

  class Buffer {
    var buf: array<char>
    var len: nat

    /** There is always room for the terminating NUL, and it is there. */
    ghost predicate Valid()
      reads this, buf
    {
      len < buf.Length && buf[len] == '\0'
    }

    ghost function Contents(): string
      requires Valid()
      reads this, buf
    {
      buf[..len]
    }

    constructor ()
      ensures Valid() && Contents() == "" && fresh(buf)
    {
      buf := new char[256](_ => '\0');
      len := 0;
    }

    /** jb_grow: doubling until `need` more bytes fit. */
    method Grow(need: nat)
      requires len <= buf.Length
      modifies `buf
      ensures len + need <= buf.Length && len <= buf.Length
      ensures buf == old(buf) || fresh(buf)
      ensures buf[..len] == old(buf[..len])
    {
      if len + need < buf.Length {
        return;
      }
      var cap := if buf.Length > 0 then buf.Length * 2 else 256;
      while cap < len + need
        invariant 0 < cap && len <= cap
        decreases len + need - cap
      {
        cap := cap * 2;
      }
      var bigger := new char[cap];
      for i := 0 to len
        invariant buf == old(buf) && bigger[..i] == buf[..i]
      {
        bigger[i] := buf[i];
      }
      buf := bigger;
    }

    /** jb_append_raw */
    method AppendRaw(s: string)
      requires Valid()
      modifies this, buf
      ensures Valid() && Contents() == old(Contents()) + s && (buf == old(buf) || fresh(buf))
    {
      Grow(|s| + 1);
      ghost var before := buf[..len];
      ghost var grown, start := buf, len;
      for i := 0 to |s|
        invariant buf == grown && len == start
        invariant buf[..len + i] == before + s[..i]
      {
        buf[len + i] := s[i];
        assert s[..i + 1] == s[..i] + [s[i]];
      }
      assert s[..|s|] == s;
      len := len + |s|;
      buf[len] := '\0';
    }

    /** jb_append_char */
    method AppendChar(c: char)
      requires Valid()
      modifies this, buf
      ensures Valid() && Contents() == old(Contents()) + [c] && (buf == old(buf) || fresh(buf))
    {
      Grow(2);
      buf[len] := c;
      len := len + 1;
      buf[len] := '\0';
    }

    method Separate()
      requires Valid()
      modifies this, buf
      ensures Valid() && Contents() == Separated(old(Contents())) && (buf == old(buf) || fresh(buf))
    {
      if len != 0 && buf[len - 1] != '{' && buf[len - 1] != '[' && buf[len - 1] != ':' && buf[len - 1] != ',' {
        AppendChar(',');
      }
    }

    /** append_escaped */
    method AppendEscaped(s: string)
      requires Valid()
      modifies this, buf
      ensures Valid() && Contents() == old(Contents()) + Quoted(s) && (buf == old(buf) || fresh(buf))
    {
      hide Escape, EscapeChar;
      ghost var before := Contents();
      AppendChar('"');
      assert s[0..] == s;
      var i := 0;
      while i < |s|
        invariant 0 <= i <= |s|
        invariant Valid() && (buf == old(buf) || fresh(buf))
        invariant Contents() + Escape(s[i..]) == before + "\"" + Escape(s)
      {
        ghost var c := Contents();
        EscapeStep(s, i, c);
        AppendRaw(EscapeChar(s[i]));
        i := i + 1;
      }
      assert s[i..] == "";
      EscapeNothing(Contents());
      AppendChar('"');
      assert before + "\"" + Escape(s) + "\"" == before + Quoted(s);
    }

    method ObjStart()
      requires Valid()
      modifies this, buf
      ensures Valid() && Contents() == Separated(old(Contents())) + "{" && (buf == old(buf) || fresh(buf))
    {
      Separate();
      AppendChar('{');
    }

    method ObjEnd()
      requires Valid()
      modifies this, buf
      ensures Valid() && Contents() == old(Contents()) + "}" && (buf == old(buf) || fresh(buf))
    {
      AppendChar('}');
    }

    method ArrStart()
      requires Valid()
      modifies this, buf
      ensures Valid() && Contents() == Separated(old(Contents())) + "[" && (buf == old(buf) || fresh(buf))
    {
      Separate();
      AppendChar('[');
    }

    method ArrEnd()
      requires Valid()
      modifies this, buf
      ensures Valid() && Contents() == old(Contents()) + "]" && (buf == old(buf) || fresh(buf))
    {
      AppendChar(']');
    }

    method Key(key: string)
      requires Valid()
      modifies this, buf
      ensures Valid() && Contents() == Separated(old(Contents())) + Quoted(key) + ":" && (buf == old(buf) || fresh(buf))
    {
      Separate();
      AppendEscaped(key);
      AppendChar(':');
    }

    method Scalar(t: string)
      requires Valid()
      modifies this, buf
      ensures Valid() && Contents() == Separated(old(Contents())) + t && (buf == old(buf) || fresh(buf))
    {
      Separate();
      AppendRaw(t);
    }

    method StringValue(s: string)
      requires Valid()
      modifies this, buf
      ensures Valid() && Contents() == Separated(old(Contents())) + Quoted(s) && (buf == old(buf) || fresh(buf))
    {
      Separate();
      AppendEscaped(s);
    }

    /** Any tree, emitted call by call: the canonical text, after a comma where one is due. */
    method Emit(v: Json)
      requires Valid()
      modifies this, buf
      ensures Valid() && Contents() == Separated(old(Contents())) + Text(v) && (buf == old(buf) || fresh(buf))
      decreases v, 0
    {
      ghost var before := Separated(Contents());
      match v
      case Obj(ms) =>
        ObjStart();
        EmitMembers(ms);
        ObjEnd();
        assert Contents() == before + "{" + MembersText(ms) + "}";
        Regroup(before, "{", MembersText(ms), "}");
      case Arr(es) =>
        ArrStart();
        EmitElems(es);
        ArrEnd();
        Regroup(before, "[", ElemsText(es), "]");
      case Str(s) =>
        StringValue(s);
      case Int(n) =>
        Scalar(Decimal(n));
      case Num(t) =>
        Scalar(t);
      case Bool(b) =>
        Scalar(if b then "true" else "false");
      case Null =>
        Scalar("null");
    }

    method EmitMembers(ms: Members)
      requires Valid()
      modifies this, buf
      ensures Valid() && Contents() == AfterMembers(old(Contents()), ms) && (buf == old(buf) || fresh(buf))
      decreases ms, 1
    {
      if ms.Member? {
        ghost var before := Contents();
        Key(ms.key);
        Emit(ms.value);
        MemberStep(before, ms);
        EmitMembers(ms.rest);
      }
    }

    method EmitElems(es: Elems)
      requires Valid()
      modifies this, buf
      ensures Valid() && Contents() == AfterElems(old(Contents()), es) && (buf == old(buf) || fresh(buf))
      decreases es, 1
    {
      if es.Elem? {
        ghost var before := Contents();
        Emit(es.value);
        ElemStep(before, es);
        EmitElems(es.rest);
      }
    }
  }

  /** The buffer after the members of an object: right behind the brace, or behind earlier members. */
  function AfterMembers(b: string, ms: Members): string {
    if ms.NoMember? then b else Separated(b) + MembersText(ms)
  }

  function AfterElems(b: string, es: Elems): string {
    if es.NoElem? then b else Separated(b) + ElemsText(es)
  }

  lemma Regroup(a: string, b: string, c: string, d: string)
    ensures a + b + c + d == a + (b + c + d)
  {
  }

  lemma EscapeNothing(c: string)
    ensures c + Escape("") == c
  {
  }

  lemma EscapeStep(s: string, i: nat, c: string)
    requires i < |s|
    ensures c + Escape(s[i..]) == (c + EscapeChar(s[i])) + Escape(s[i + 1..])
  {
    assert s[i..][1..] == s[i + 1..];
  }

  lemma LastOfConcat(a: string, t: string)
    requires t != "" && !OpensOrSeparates(t[|t| - 1])
    ensures Separated(a + t) == a + t + ","
  {
    assert (a + t)[|a + t| - 1] == t[|t| - 1];
  }

  lemma SeparatorEnds()
    ensures OpensOrSeparates(':')
  {
  }

  lemma MemberStep(before: string, ms: Members)
    requires ms.Member?
    ensures var keyed := Separated(before) + Quoted(ms.key) + ":";
            && Separated(keyed) == keyed
            && AfterMembers(keyed + Text(ms.value), ms.rest) == AfterMembers(before, ms)
  {
    hide Text, Quoted, OpensOrSeparates;
    SeparatorEnds();
    var keyed := Separated(before) + Quoted(ms.key) + ":";
    assert keyed[|keyed| - 1] == ':';
    TextEnds(ms.value);
    LastOfConcat(keyed, Text(ms.value));
    Join(Separated(before), Quoted(ms.key), Text(ms.value), MembersText(ms.rest));
  }

  lemma Join(p: string, q: string, t: string, m: string)
    ensures p + q + ":" + t == p + (q + ":" + t + "")
    ensures p + q + ":" + t + "," + m == p + (q + ":" + t + ("," + m))
    ensures p + t == p + (t + "")
    ensures p + t + "," + m == p + (t + ("," + m))
  {
  }

  lemma ElemStep(before: string, es: Elems)
    requires es.Elem?
    ensures AfterElems(Separated(before) + Text(es.value), es.rest) == AfterElems(before, es)
  {
    TextEnds(es.value);
    LastOfConcat(Separated(before), Text(es.value));
    Join(Separated(before), "", Text(es.value), ElemsText(es.rest));
  }
}
