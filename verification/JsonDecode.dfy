/**
 The JSON decoder of src/json/json.c:169-395: cursors moving over raw text.  A text is the
 bytes of a C string before its NUL and a pointer is an offset into it; reading at the end
 reads the NUL.  Every function here is total: on any text whatever, it ends, and it returns
 nothing or a position inside the text.
 */
module JsonDecode {
  import opened Options
  import opened JsonText

  /** A value inside a text. */
  datatype Span = Span(start: nat, end: nat)

  predicate Is(s: string, p: nat, c: char) {
    p < |s| && s[p] == c
  }

  // ----- skipping

  function SkipWs(s: string, p: nat): (r: nat)
    requires p <= |s|
    ensures p <= r <= |s|
    ensures r < |s| ==> !IsSpace(s[r])
    decreases |s| - p
  {
    if p < |s| && IsSpace(s[p]) then SkipWs(s, p + 1) else p
  }

  /** From inside a string to behind its closing quote. */
  function SkipBody(s: string, p: nat): (r: Option<nat>)
    requires p <= |s|
    ensures r.Some? ==> p < r.value <= |s| && s[r.value - 1] == '"'
    decreases |s| - p
  {
    if p == |s| then None
    else if s[p] == '\\' && p + 1 < |s| then SkipBody(s, p + 2)
    else if s[p] == '"' then Some(p + 1)
    else SkipBody(s, p + 1)
  }

  function SkipStr(s: string, p: nat): (r: Option<nat>)
    requires p <= |s|
    ensures r.Some? ==> p + 2 <= r.value <= |s| && s[p] == '"' && s[r.value - 1] == '"'
  {
    if Is(s, p, '"') then SkipBody(s, p + 1) else None
  }

  /** To the next comma or closing bracket, or the end. */
  function SkipScalar(s: string, p: nat): (r: nat)
    requires p <= |s|
    ensures p <= r <= |s|
    decreases |s| - p
  {
    if p < |s| && s[p] != ',' && s[p] != '}' && s[p] != ']' then SkipScalar(s, p + 1) else p
  }

  function SkipValue(s: string, p: nat): (r: Option<nat>)
    requires p <= |s|
    ensures r.Some? ==> p <= r.value <= |s|
    decreases |s| - p, 1
  {
    var q := SkipWs(s, p);
    if Is(s, q, '"') then SkipStr(s, q)
    else if Is(s, q, '{') then SkipMembers(s, q + 1)
    else if Is(s, q, '[') then SkipElems(s, q + 1)
    else Some(SkipScalar(s, q))
  }

  /** The member loop of skip_value: a missing colon and a comma before the brace are let through. */
  function SkipMembers(s: string, p: nat): (r: Option<nat>)
    requires p <= |s|
    ensures r.Some? ==> p < r.value <= |s|
    decreases |s| - p, 2
  {
    var q := SkipWs(s, p);
    if Is(s, q, '}') then Some(q + 1)
    else
      match SkipStr(s, q)
      case None => None
      case Some(keyEnd) =>
        var k := SkipWs(s, keyEnd);
        match SkipValue(s, if Is(s, k, ':') then k + 1 else k)
        case None => None
        case Some(valueEnd) =>
          var e := SkipWs(s, valueEnd);
          if Is(s, e, ',') then SkipMembers(s, e + 1)
          else if Is(s, e, '}') then Some(e + 1)
          else None
  }

  function SkipElems(s: string, p: nat): (r: Option<nat>)
    requires p <= |s|
    ensures r.Some? ==> p < r.value <= |s|
    decreases |s| - p, 2
  {
    var q := SkipWs(s, p);
    if Is(s, q, ']') then Some(q + 1)
    else
      match SkipValue(s, q)
      case None => None
      case Some(valueEnd) =>
        var e := SkipWs(s, valueEnd);
        if Is(s, e, ',') then SkipElems(s, e + 1)
        else if Is(s, e, ']') then Some(e + 1)
        else None
  }

  // ----- the skipping loops

  method SkipSpaces(s: string, start: nat) returns (p: nat)
    requires start <= |s|
    ensures p == SkipWs(s, start)
  {
    p := start;
    while p < |s| && IsSpace(s[p])
      invariant start <= p <= |s| && SkipWs(s, p) == SkipWs(s, start)
    {
      p := p + 1;
    }
  }

  method SkipString(s: string, start: nat) returns (r: Option<nat>)
    requires start <= |s|
    ensures r == SkipStr(s, start)
  {
    if !Is(s, start, '"') {
      return None;
    }
    var p := start + 1;
    while p < |s|
      invariant start < p <= |s| && SkipBody(s, p) == SkipBody(s, start + 1)
    {
      if s[p] == '\\' && p + 1 < |s| {
        p := p + 2;
      } else if s[p] == '"' {
        return Some(p + 1);
      } else {
        p := p + 1;
      }
    }
    return None;
  }

  method SkipAny(s: string, start: nat) returns (r: Option<nat>)
    requires start <= |s|
    ensures r == SkipValue(s, start)
    decreases |s| - start, 1
  {
    var p := SkipSpaces(s, start);
    if Is(s, p, '"') {
      r := SkipString(s, p);
    } else if Is(s, p, '{') {
      r := SkipObject(s, p + 1);
    } else if Is(s, p, '[') {
      r := SkipArray(s, p + 1);
    } else {
      ghost var q := p;
      while p < |s| && s[p] != ',' && s[p] != '}' && s[p] != ']'
        invariant q <= p <= |s| && SkipScalar(s, p) == SkipScalar(s, q)
      {
        p := p + 1;
      }
      r := Some(p);
    }
  }

  method SkipObject(s: string, start: nat) returns (r: Option<nat>)
    requires start <= |s|
    ensures r == SkipMembers(s, start)
    decreases |s| - start, 2
  {
    hide SkipWs, SkipStr, SkipValue;
    var p := start;
    while true
      invariant start <= p <= |s| && SkipMembers(s, p) == SkipMembers(s, start)
      decreases |s| - p
    {
      p := SkipSpaces(s, p);
      if Is(s, p, '}') {
        return Some(p + 1);
      }
      var key := SkipString(s, p);
      if key.None? {
        return None;
      }
      p := SkipSpaces(s, key.value);
      if Is(s, p, ':') {
        p := p + 1;
      }
      var value := SkipAny(s, p);
      if value.None? {
        return None;
      }
      p := SkipSpaces(s, value.value);
      if Is(s, p, ',') {
        p := p + 1;
      } else if Is(s, p, '}') {
        return Some(p + 1);
      } else {
        return None;
      }
    }
  }

  method SkipArray(s: string, start: nat) returns (r: Option<nat>)
    requires start <= |s|
    ensures r == SkipElems(s, start)
    decreases |s| - start, 2
  {
    hide SkipWs, SkipStr, SkipValue;
    var p := start;
    while true
      invariant start <= p <= |s| && SkipElems(s, p) == SkipElems(s, start)
      decreases |s| - p
    {
      p := SkipSpaces(s, p);
      if Is(s, p, ']') {
        return Some(p + 1);
      }
      var value := SkipAny(s, p);
      if value.None? {
        return None;
      }
      p := SkipSpaces(s, value.value);
      if Is(s, p, ',') {
        p := p + 1;
      } else if Is(s, p, ']') {
        return Some(p + 1);
      } else {
        return None;
      }
    }
  }

  // ----- looking up a member

  /** One member as obj_get reads it: the raw key between its quotes, and the value. */
  datatype MemberSpan = MemberSpan(key: Span, value: Span)

  function MemberAt(s: string, p: nat): (r: Option<MemberSpan>)
    requires p <= |s|
    ensures r.Some? ==> p < r.value.key.start <= r.value.key.end < r.value.value.start <= r.value.value.end <= |s|
  {
    var q := SkipWs(s, p);
    match SkipStr(s, q)
    case None => None
    case Some(keyEnd) =>
      var k := SkipWs(s, keyEnd);
      if !Is(s, k, ':') then None
      else
        var start := SkipWs(s, k + 1);
        match SkipValue(s, start)
        case None => None
        case Some(end) => Some(MemberSpan(Span(q + 1, keyEnd - 1), Span(start, end)))
  }

  /** The rest of nsr_json_obj_get from a place where a member may start.  The key is compared
      with the raw bytes between the quotes, escapes and all. */
  function FindMember(s: string, p: nat, key: string): (r: Option<Span>)
    requires p <= |s|
    ensures r.Some? ==> p < r.value.start <= r.value.end <= |s|
    decreases |s| - p
  {
    match MemberAt(s, p)
    case None => None
    case Some(m) =>
      if s[m.key.start..m.key.end] == key then Some(m.value)
      else
        var e := SkipWs(s, m.value.end);
        if Is(s, e, ',') then FindMember(s, e + 1, key) else None
  }

  function ObjGet(s: string, p: nat, key: string): (r: Option<Span>)
    requires p <= |s|
    ensures r.Some? ==> p < r.value.start <= r.value.end <= |s|
  {
    var q := SkipWs(s, p);
    if Is(s, q, '{') then FindMember(s, q + 1, key) else None
  }

  method ReadMember(s: string, start: nat) returns (r: Option<MemberSpan>)
    requires start <= |s|
    ensures r == MemberAt(s, start)
  {
    hide SkipWs, SkipBody, SkipValue;
    var p := SkipSpaces(s, start);
    if Is(s, p, '}') || !Is(s, p, '"') {
      return None;
    }
    var keyEnd := SkipString(s, p);
    if keyEnd.None? {
      return None;
    }
    var key := Span(p + 1, keyEnd.value - 1);
    p := SkipSpaces(s, keyEnd.value);
    if !Is(s, p, ':') {
      return None;
    }
    var valueStart := SkipSpaces(s, p + 1);
    var valueEnd := SkipAny(s, valueStart);
    if valueEnd.None? {
      return None;
    }
    return Some(MemberSpan(key, Span(valueStart, valueEnd.value)));
  }

  method GetMember(s: string, start: nat, key: string) returns (r: Option<Span>)
    requires start <= |s|
    ensures r == ObjGet(s, start, key)
  {
    hide SkipWs, MemberAt;
    var p := SkipSpaces(s, start);
    if !Is(s, p, '{') {
      return None;
    }
    p := p + 1;
    ghost var first := p;
    while true
      invariant first <= p <= |s| && FindMember(s, p, key) == FindMember(s, first, key)
      decreases |s| - p
    {
      var m := ReadMember(s, p);
      if m.None? {
        return None;
      }
      if s[m.value.key.start..m.value.key.end] == key {
        return Some(m.value.value);
      }
      p := SkipSpaces(s, m.value.value.end);
      if !Is(s, p, ',') {
        return None;
      }
      p := p + 1;
    }
  }

  // ----- arrays

  /** nsr_json_arr_first: the first element, or nothing. */
  function ArrFirst(s: string, p: nat): (r: Option<Span>)
    requires p <= |s|
    ensures r.Some? ==> p < r.value.start <= r.value.end <= |s|
  {
    var q := SkipWs(s, p);
    if !Is(s, q, '[') then None
    else
      var start := SkipWs(s, q + 1);
      if Is(s, start, ']') then None
      else
        match SkipValue(s, start)
        case None => None
        case Some(end) => Some(Span(start, end))
  }

  /** nsr_json_arr_next: the element after the one that ended at `next`, or nothing. */
  function ArrNext(s: string, next: nat): (r: Option<Span>)
    requires next <= |s|
    ensures r.Some? ==> next < r.value.start <= r.value.end <= |s|
  {
    var q := SkipWs(s, next);
    if !Is(s, q, ',') then None
    else
      var start := SkipWs(s, q + 1);
      match SkipValue(s, start)
      case None => None
      case Some(end) => Some(Span(start, end))
  }

  /** The elements a caller sees that starts after the element ending at `next`. */
  function ElementsFrom(s: string, next: nat): (r: seq<Span>)
    requires next <= |s|
    ensures forall i :: 0 <= i < |r| ==> next < r[i].start <= r[i].end <= |s|
    ensures forall i, j :: 0 <= i < j < |r| ==> r[i].end < r[j].start
    decreases |s| - next
  {
    match ArrNext(s, next)
    case None => []
    case Some(span) => [span] + ElementsFrom(s, span.end)
  }

  /** The elements a caller sees that iterates with ArrFirst and ArrNext: on any text the
      iteration ends, and its elements lie inside the text and strictly advance. */
  function Elements(s: string, p: nat): (r: seq<Span>)
    requires p <= |s|
    ensures forall i :: 0 <= i < |r| ==> p < r[i].start <= r[i].end <= |s|
    ensures forall i, j :: 0 <= i < j < |r| ==> r[i].start <= r[i].end < r[j].start
  {
    match ArrFirst(s, p)
    case None => []
    case Some(span) => [span] + ElementsFrom(s, span.end)
  }

  // ----- parsing scalars

  function Unescaped(c: char): char {
    if c == 'b' then BACKSPACE
    else if c == 'f' then FORM_FEED
    else if c == 'n' then '\n'
    else if c == 'r' then '\r'
    else if c == 't' then '\t'
    else c
  }

  /** What parse_str makes of the bytes between the quotes, before it cuts to the caller's size. */
  function Unescape(t: string): string {
    if t == "" then ""
    else if t[0] == '\\' && |t| > 1 then [Unescaped(t[1])] + Unescape(t[2..])
    else [t[0]] + Unescape(t[1..])
  }

  function Cut(t: string, size: nat): string
    requires size > 0
  {
    if |t| < size then t else t[..size - 1]
  }

  /** nsr_json_parse_str into a buffer of `size` bytes. */
  method ParseStr(val: string, size: nat) returns (ok: bool, out: string)
    requires size > 0
    ensures ok <==> |val| >= 2 && val[0] == '"' && val[|val| - 1] == '"'
    ensures ok ==> out == Cut(Unescape(val[1..|val| - 1]), size)
  {
    hide Unescape;
    out := "";
    if |val| < 2 || val[0] != '"' || val[|val| - 1] != '"' {
      return false, out;
    }
    ghost var body := val[1..|val| - 1];
    var p, end := 1, |val| - 1;
    assert val[p..end] == body;
    while p < end
      invariant 1 <= p <= end && |out| < size
      invariant Cut(out + Unescape(val[p..end]), size) == Cut(Unescape(body), size)
    {
      var c;
      ghost var before, rest := out, val[p..end];
      if val[p] == '\\' && p + 1 < end {
        c := Unescaped(val[p + 1]);
        p := p + 2;
      } else {
        c := val[p];
        p := p + 1;
      }
      UnescapeStep(rest);
      assert val[p..end] == rest[if rest[0] == '\\' && |rest| > 1 then 2 else 1..];
      CutStep(before, c, Unescape(val[p..end]), size);
      if |out| < size - 1 {
        out := out + [c];
      }
    }
    assert val[p..end] == "";
    UnescapeNothing(out);
    return true, out;
  }

  lemma UnescapeNothing(out: string)
    ensures out + Unescape("") == out
  {
  }

  lemma UnescapeStep(t: string)
    requires t != ""
    ensures Unescape(t) == if t[0] == '\\' && |t| > 1 then [Unescaped(t[1])] + Unescape(t[2..])
                           else [t[0]] + Unescape(t[1..])
  {
  }

  lemma CutStep(out: string, c: char, rest: string, size: nat)
    requires 0 < size && |out| < size
    ensures Cut(out + ([c] + rest), size) == Cut((if |out| < size - 1 then out + [c] else out) + rest, size)
  {
  }

  /** C's strtoll in base 10 on a whole string: white space, a sign, digits; the value is
      clamped to 64 bits.  Returns the value and how many bytes were used (0 without a digit). */
  function Strtoll(t: string): (int, nat) {
    var p := SkipWs(t, 0);
    var neg := Is(t, p, '-');
    var q := if neg || Is(t, p, '+') then p + 1 else p;
    var e := DigitsEnd(t, q);
    if e == q then (0, 0)
    else
      var n: int := Number(t[q..e]);
      (Clamp(if neg then -n else n), e)
  }

  function DigitsEnd(t: string, p: nat): (e: nat)
    requires p <= |t|
    ensures p <= e <= |t| && AllDigits(t[p..e])
    ensures e < |t| ==> !IsDigit(t[e])
    decreases |t| - p
  {
    if p < |t| && IsDigit(t[p]) then DigitsEnd(t, p + 1) else p
  }

  function DigitValue(c: char): nat
    requires IsDigit(c)
  {
    c as nat - '0' as nat
  }

  function Number(t: string): nat
    requires AllDigits(t)
  {
    if t == "" then 0 else Number(t[..|t| - 1]) * 10 + DigitValue(t[|t| - 1])
  }

  function Clamp(n: int): int {
    if n < INT_MIN then INT_MIN else if n > INT_MAX then INT_MAX else n
  }

  /** nsr_json_parse_int: whether the whole span was a number, and what it stored, if anything. */
  function ParseInt(val: string): (bool, Option<int>) {
    if |val| >= 32 then (false, None)
    else
      var (n, used) := Strtoll(val);
      (used == |val|, Some(n))
  }

  function ParseBool(val: string): Option<bool> {
    if val == "true" then Some(true) else if val == "false" then Some(false) else None
  }
}
