/**
 JSON values and their canonical compact text (sections 4 to 7 of RFC 8259), written down
 independently of the encoder.  Each char stands for one byte of a C string.
 */
module JsonText {

  const INT_MIN: int := -0x8000_0000_0000_0000
  const INT_MAX: int := 0x7FFF_FFFF_FFFF_FFFF

  datatype Json =
    | Obj(members: Members)
    | Arr(elems: Elems)
    | Str(text: string)
    | Int(n: int)
    | Num(digits: NumText)
    | Bool(b: bool)
    | Null

  /** What printf makes of a double; which number it is does not matter here. */
  type NumText = t: string | IsScalarText(t) && t != "true" && t != "false" && t != "null" witness "0"

  datatype Members = NoMember | Member(key: string, value: Json, rest: Members)

  datatype Elems = NoElem | Elem(value: Json, rest: Elems)

  // ----- strings

  const BACKSPACE: char := 8 as char
  const FORM_FEED: char := 12 as char

  function HexDigit(n: nat): char
    requires n < 16
  {
    "0123456789abcdef"[n]
  }

  function EscapeChar(c: char): string {
    if c == '"' then "\\\""
    else if c == '\\' then "\\\\"
    else if c == BACKSPACE then "\\b"
    else if c == FORM_FEED then "\\f"
    else if c == '\n' then "\\n"
    else if c == '\r' then "\\r"
    else if c == '\t' then "\\t"
    else if c < ' ' then "\\u00" + [HexDigit(c as nat / 16), HexDigit(c as nat % 16)]
    else [c]
  }

  function Escape(s: string): string {
    if s == "" then "" else EscapeChar(s[0]) + Escape(s[1..])
  }

  function Quoted(s: string): string {
    "\"" + Escape(s) + "\""
  }

  // ----- numbers

  function Digit(n: nat): char
    requires n < 10
  {
    "0123456789"[n]
  }

  function Digits(n: nat): (s: string)
    ensures |s| >= 1
  {
    if n < 10 then [Digit(n)] else Digits(n / 10) + [Digit(n % 10)]
  }

  function Decimal(n: int): string {
    if n < 0 then "-" + Digits(-n) else Digits(n)
  }

  // ----- values

  function Text(v: Json): string {
    match v
    case Obj(ms) => "{" + MembersText(ms) + "}"
    case Arr(es) => "[" + ElemsText(es) + "]"
    case Str(s) => Quoted(s)
    case Int(n) => Decimal(n)
    case Num(t) => t
    case Bool(b) => if b then "true" else "false"
    case Null => "null"
  }

  function MembersText(ms: Members): string {
    match ms
    case NoMember => ""
    case Member(key, value, rest) =>
      Quoted(key) + ":" + Text(value) + if rest.NoMember? then "" else "," + MembersText(rest)
  }

  function ElemsText(es: Elems): string {
    match es
    case NoElem => ""
    case Elem(value, rest) => Text(value) + if rest.NoElem? then "" else "," + ElemsText(rest)
  }

  // ----- facts about the text

  predicate IsDigit(c: char) {
    '0' <= c <= '9'
  }

  ghost predicate AllDigits(s: string) {
    forall i :: 0 <= i < |s| ==> IsDigit(s[i])
  }

  lemma {:induction false} DigitsAreDigits(n: nat)
    ensures AllDigits(Digits(n))
  {
    if n >= 10 {
      DigitsAreDigits(n / 10);
    }
  }

  /** Characters of numbers and of true, false and null. */
  predicate ScalarChar(c: char) {
    c == '-' || c == '.' || IsDigit(c) || 'a' <= c <= 'z'
  }

  predicate IsScalarText(t: string) {
    t != "" && forall i :: 0 <= i < |t| ==> ScalarChar(t[i])
  }

  lemma ScalarText(v: Json)
    requires v.Int? || v.Num? || v.Bool? || v.Null?
    ensures IsScalarText(Text(v))
  {
    if v.Int? {
      DigitsAreDigits(if v.n < 0 then -v.n else v.n);
    }
  }

  /** No value text is empty, starts with white space, or ends in a byte after which the
      encoder would leave out a comma. */
  predicate OpensOrSeparates(c: char) {
    c == '{' || c == '[' || c == ':' || c == ','
  }

  predicate IsSpace(c: char) {
    c == ' ' || 9 <= c as nat <= 13
  }

  lemma TextEnds(v: Json)
    ensures var t := Text(v); t != "" && !IsSpace(t[0]) && !OpensOrSeparates(t[|t| - 1])
    ensures var t := Text(v);
            && (t[0] == '"' <==> v.Str?) && (t[0] == '{' <==> v.Obj?) && (t[0] == '[' <==> v.Arr?)
            && t[0] != '}' && t[0] != ']' && t[0] != ','
  {
    if v.Int? || v.Num? || v.Bool? || v.Null? {
      ScalarText(v);
      hide Decimal;
      assert ScalarChar(Text(v)[0]) && ScalarChar(Text(v)[|Text(v)| - 1]);
    } else if v.Str? {
      assert Text(v)[|Text(v)| - 1] == '"';
    }
  }

  // ----- texts written out

  lemma {:induction false} EscapeConcat(x: string, y: string)
    ensures Escape(x + y) == Escape(x) + Escape(y)
  {
    hide EscapeChar;
    if x == "" {
      assert x + y == y;
    } else {
      assert (x + y)[1..] == x[1..] + y;
      EscapeConcat(x[1..], y);
    }
  }

  lemma EscapeOne(c: char)
    ensures Escape([c]) == EscapeChar(c)
  {
    hide EscapeChar;
    assert [c][1..] == "" && Escape("") == "";
  }

  /** A string is escaped byte by byte, with these escapes and no others. */
  lemma EscapesWritten(x: string, c: char, y: string)
    ensures Escape(x + [c] + y) == Escape(x) + Escape([c]) + Escape(y)
    ensures c == '"' ==> Escape([c]) == "\\\""
    ensures c == '\\' ==> Escape([c]) == "\\\\"
    ensures c == 8 as char ==> Escape([c]) == "\\b"
    ensures c == 9 as char ==> Escape([c]) == "\\t"
    ensures c == 10 as char ==> Escape([c]) == "\\n"
    ensures c == 12 as char ==> Escape([c]) == "\\f"
    ensures c == 13 as char ==> Escape([c]) == "\\r"
    ensures c == 1 as char ==> Escape([c]) == "\\u0001"
    ensures c == 31 as char ==> Escape([c]) == "\\u001f"
    ensures c >= ' ' && c != '"' && c != '\\' ==> Escape([c]) == [c]
  {
    EscapeOne(c);
    EscapeConcat(x + [c], y);
    EscapeConcat(x, [c]);
  }

  /** Numbers are written in decimal, the last digit last. */
  lemma DigitsWritten(n: int, d: int)
    requires 0 <= n && 0 <= d < 10
    ensures Text(Int(d)) == ["0123456789"[d]]
    ensures n > 0 ==> Text(Int(10 * n + d)) == Text(Int(n)) + ["0123456789"[d]] && Text(Int(-n)) == "-" + Text(Int(n))
  {
    assert (10 * n + d) / 10 == n && (10 * n + d) % 10 == d;
  }

  /** The other tokens. */
  lemma TokensWritten(a: string, v: Json, b: string, w: Json)
    ensures Text(Bool(true)) == "true" && Text(Bool(false)) == "false" && Text(Null) == "null"
    ensures Text(Arr(NoElem)) == "[]" && Text(Obj(NoMember)) == "{}"
    ensures Text(Arr(Elem(v, Elem(w, NoElem)))) == "[" + Text(v) + "," + Text(w) + "]"
    ensures Text(Obj(Member(a, v, Member(b, w, NoMember)))) ==
            "{\"" + Escape(a) + "\":" + Text(v) + ",\"" + Escape(b) + "\":" + Text(w) + "}"
  {
    hide Text, Escape, Decimal, ElemsText, MembersText;
    Containers(Elem(v, Elem(w, NoElem)), Member(a, v, Member(b, w, NoMember)));
    Literals();
    TwoElems(v, w);
    TwoMembers(a, v, b, w);
  }

  lemma Containers(es: Elems, ms: Members)
    ensures Text(Arr(es)) == "[" + ElemsText(es) + "]" && Text(Obj(ms)) == "{" + MembersText(ms) + "}"
  {
  }

  lemma Literals()
    ensures Text(Bool(true)) == "true" && Text(Bool(false)) == "false" && Text(Null) == "null"
    ensures Text(Arr(NoElem)) == "[]" && Text(Obj(NoMember)) == "{}"
  {
  }

  lemma TwoElems(v: Json, w: Json)
    ensures ElemsText(Elem(v, Elem(w, NoElem))) == Text(v) + "," + Text(w)
  {
    hide Text;
    assert ElemsText(Elem(w, NoElem)) == Text(w);
  }

  lemma TwoMembers(a: string, v: Json, b: string, w: Json)
    ensures MembersText(Member(a, v, Member(b, w, NoMember))) ==
            "\"" + Escape(a) + "\":" + Text(v) + ",\"" + Escape(b) + "\":" + Text(w)
  {
    hide Text, Escape;
    assert MembersText(Member(b, w, NoMember)) == "\"" + Escape(b) + "\":" + Text(w);
  }
}
