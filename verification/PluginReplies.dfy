/**
 What a plugin's messages do to its host entry, in terms of the values they spell, with any blanks
 between the tokens: replies to on_key (src/plugin/plugin.c:556-575, 622-663) and force_sync messages
 (src/plugin/plugin.c:531-554).
 */
module PluginReplies {
  import opened Options
  import opened Texts
  import opened JsonText
  import opened JsonLayout
  import opened JsonDecode
  import opened JsonRoundTrip
  import opened JsonRecover
  import opened Framing
  import opened PluginWire
  import opened PluginLedger
  import opened PluginSteps

  /** The members of an object; any other value has none. */
  function MembersOf(v: Option<Json>): Members {
    if v.Some? && v.value.Obj? then v.value.members else NoMember
  }

  function BoolOf(v: Option<Json>): Option<bool> {
    if v.Some? && v.value.Bool? then Some(v.value.b) else None
  }

  // ----- reading members of a value

  ghost predicate Stands(line: string, p: nat, l: Layout) {
    Laid(l) && At(line, p, Spaced(l))
  }

  /** obj_get of a plain key on any value, wherever it stands: the place of the first member's value. */
  lemma GetOnTree(line: string, p: nat, l: Layout, key: string) returns (v: Layout)
    requires Stands(line, p, l) && PlainKey(key)
    ensures p <= |line|
    ensures Lookup(MembersOf(Some(Tree(l))), key).None? ==> ObjGet(line, p, key).None?
    ensures Lookup(MembersOf(Some(Tree(l))), key).Some? ==>
              && ObjGet(line, p, key).Some? && Lookup(MembersOf(Some(Tree(l))), key) == Some(Tree(v))
              && var r := ObjGet(line, p, key).value; Stands(line, r.start, v) && line[r.start..r.end] == Spaced(v)
  {
    hide Spaced, At, ObjGet, FirstLaid, PlainKey, Tree;
    v := l;
    InText(line, p, Spaced(l));
    ObjectTree(l);
    if l.Object? {
      ObjGetRecovers(line, p, l.open, l.members, key);
      if FirstLaid(l.members, key).Some? {
        v := FirstLaid(l.members, key).value;
      }
    } else {
      NoObject(line, p, l, key);
    }
  }

  lemma ObjectTree(l: Layout)
    requires Laid(l)
    ensures l.Object? ==> Tree(l) == Obj(TreeMembers(l.members)) && LaidMembers(l.members)
    ensures !l.Object? ==> !Tree(l).Obj?
  {
  }

  lemma NoObject(line: string, p: nat, l: Layout, key: string)
    requires Stands(line, p, l) && !l.Object? && p <= |line|
    ensures ObjGet(line, p, key).None?
  {
    hide Spaced, At, FindMember;
    SpacedStarts(l);
    InText(line, p, Spaced(l));
    NoSpace(line, p);
  }

  /** Only true and false parse as flags. */
  lemma FlagText(v: Layout)
    requires Laid(v)
    ensures ParseBool(Spaced(v)) == if Tree(v).Bool? then Some(Tree(v).b) else None
  {
    SpacedStarts(v);
    if v.Leaf? && v.value.Int? {
      NumberStarts(v.value.n);
    }
  }

  lemma NumberStarts(n: int)
    ensures Decimal(n) != "" && (Decimal(n)[0] == '-' || IsDigit(Decimal(n)[0]))
  {
    DigitsAreDigits(if n < 0 then -n else n);
  }

  lemma FlagOnTree(line: string, p: nat, l: Layout, key: string)
    requires Stands(line, p, l) && PlainKey(key)
    ensures p <= |line| && BoolAt(line, p, key) == BoolOf(Lookup(MembersOf(Some(Tree(l))), key))
  {
    hide Spaced, At, ObjGet, ParseBool, Tree, PlainKey, Lookup, MembersOf, Laid;
    var v := GetOnTree(line, p, l, key);
    if Lookup(MembersOf(Some(Tree(l))), key).Some? {
      FlagText(v);
    }
  }

  lemma StringOnTree(line: string, p: nat, l: Layout, key: string, size: nat)
    requires Stands(line, p, l) && PlainKey(key) && size > 0
    ensures p <= |line|
    ensures StringAt(line, p, key, size) == StringOf(Lookup(MembersOf(Some(Tree(l))), key), size)
  {
    hide Spaced, At, ObjGet, Tree, PlainKey, Lookup, MembersOf, Laid, Cut, Unescape, Quoted;
    var v := GetOnTree(line, p, l, key);
    if Lookup(MembersOf(Some(Tree(l))), key).Some? {
      StringText(v);
    }
  }

  /** A string as it arrives in a buffer; anything else arrives as nothing. */
  function StringOf(v: Option<Json>, size: nat): string
    requires size > 0
  {
    if v.Some? && v.value.Str? then Cut(Unescape(Escape(v.value.text)), size) else ""
  }

  lemma StringText(v: Layout)
    requires Laid(v)
    ensures var t := Spaced(v);
            if Tree(v).Str? then |t| >= 2 && t[0] == '"' && t[|t| - 1] == '"' && t[1..|t| - 1] == Escape(Tree(v).text)
            else t != "" && t[0] != '"'
  {
    SpacedStarts(v);
  }

  // ----- names

  lemma {:induction false} HexShows(x: string)
    requires CountHex(x) > 0
    ensures 'u' in Unescape(Escape(x))
  {
    hide Unescape, EscapeChar, HexEscaped;
    var rest := Escape(x[1..]);
    UnescapeChar(x[0], rest);
    if HexEscaped(x[0]) {
      HexStart(x[0], rest);
    } else {
      HexShows(x[1..]);
    }
  }

  /** A short printable name without a u is read from a string exactly when it is that string. */
  lemma NameIs(x: string, name: string)
    requires |name| < NAME_SIZE - 1 && 'u' !in name && forall i :: 0 <= i < |name| ==> name[i] >= ' '
    ensures Cut(Unescape(Escape(x)), NAME_SIZE) == name <==> x == name
  {
    hide Unescape, Escape;
    UnescapeOfEscape(x);
    CountHexZero(x);
    if CountHex(x) > 0 {
      HexShows(x);
    }
  }

  lemma NameOf(v: Option<Json>, name: string)
    requires name != "" && |name| < NAME_SIZE - 1 && 'u' !in name && forall i :: 0 <= i < |name| ==> name[i] >= ' '
    ensures StringOf(v, NAME_SIZE) == name <==> v == Some(Str(name))
  {
    hide Unescape, Escape, Cut;
    if v.Some? && v.value.Str? {
      NameIs(v.value.text, name);
    }
  }

  // ----- messages

  /** A line that spells an object with these members. */
  ghost predicate Spells(line: string, open: Blank, ms: LMembers) {
    LaidMembers(ms) && line == Spaced(Object(open, ms))
  }

  lemma SpellsStands(line: string, open: Blank, ms: LMembers)
    requires Spells(line, open, ms)
    ensures Stands(line, 0, Object(open, ms)) && MembersOf(Some(Tree(Object(open, ms)))) == TreeMembers(ms)
  {
    WholeText(line);
  }

  lemma IdOnTree(line: string, open: Blank, ms: LMembers, id: int)
    requires Spells(line, open, ms) && Lookup(TreeMembers(ms), "id") == Some(Int(id)) && INT_MIN <= id <= INT_MAX
    ensures LineId(line) == id
  {
    hide Spaced, LineId, PlainKey;
    SpellsStands(line, open, ms);
    NamesArePlain();
    PlainLookup(TreeMembers(ms), "id");
    LineIdOf(line, open, ms, id);
  }

  lemma NamesArePlain()
    ensures PlainKey("id") && PlainKey("method") && PlainKey("result") && PlainKey("params") && PlainKey("force_sync")
    ensures PlainKey("is_modal") && PlainKey("action") && PlainKey("file") && PlainKey("handled")
  {
  }

  lemma MethodOnTree(line: string, open: Blank, ms: LMembers)
    requires Spells(line, open, ms)
    ensures IsForceSync(line) <==> Lookup(TreeMembers(ms), "method") == Some(Str("force_sync"))
  {
    hide Spaced, StringAt, PlainKey, Lookup, StringOf, Tree;
    SpellsStands(line, open, ms);
    NamesArePlain();
    StringOnTree(line, 0, Object(open, ms), "method", NAME_SIZE);
    NameOf(Lookup(TreeMembers(ms), "method"), "force_sync");
  }

  lemma StartOnTree(line: string, open: Blank, ms: LMembers, key: string) returns (v: Layout)
    requires Spells(line, open, ms) && PlainKey(key)
    ensures Lookup(TreeMembers(ms), key).None? ==> MemberStart(line, key).None?
    ensures Lookup(TreeMembers(ms), key).Some? ==>
              && MemberStart(line, key).Some? && Lookup(TreeMembers(ms), key) == Some(Tree(v))
              && Stands(line, MemberStart(line, key).value, v)
  {
    hide Spaced, ObjGet, PlainKey, Lookup, Tree, Stands;
    SpellsStands(line, open, ms);
    v := GetOnTree(line, 0, Object(open, ms), key);
  }

  /** The modal flag after a message. */
  function ModalAfter(ms: Members, was: bool): bool {
    match Lookup(ms, "is_modal")
    case Some(Bool(b)) => b
    case _ => was
  }

  /** A force_sync message resets the entry; it makes it modal or not exactly if its parameters say so. */
  lemma SyncOnTree(s: Host, line: Arrival, fate: Fate, p: Panel, open: Blank, ms: LMembers)
    requires Spells(line.text, open, ms) && Lookup(TreeMembers(ms), "method") == Some(Str("force_sync"))
    ensures Answered(s, line, fate) == Resynced(s, fate)
    ensures var modal := ModalAfter(MembersOf(Lookup(TreeMembers(ms), "params")), p.modal);
            Effect(line.text, s.pends, p) == Panel(modal, "", "", false, "", -1, 0, 0)
  {
    hide Spaced, BoolAt, PlainKey, Lookup, Tree, Stands, Spells, MemberStart, Resynced, IsForceSync, LineId, MembersOf;
    NamesArePlain();
    MethodOnTree(line.text, open, ms);
    var v := StartOnTree(line.text, open, ms, "params");
    if Lookup(TreeMembers(ms), "params").Some? {
      FlagOnTree(line.text, MemberStart(line.text, "params").value, v, "is_modal");
    } else {
      NothingIn("is_modal");
    }
  }

  lemma NothingIn(key: string)
    ensures Lookup(MembersOf(None), key) == None
  {
  }

  /** What the result of a reply asks for. */
  predicate AsksReset(result: Option<Json>) {
    Lookup(MembersOf(result), "force_sync") == Some(Bool(true))
  }

  lemma ActionOnTree(line: string, at: nat, v: Layout, p: Panel)
    requires Stands(line, at, v)
    ensures at <= |line|
    ensures var ms := MembersOf(Some(Tree(v))); var e := ActionEffect(line, at, p);
            if Lookup(ms, "action") == Some(Str("open_editor")) then
              var file := StringOf(Lookup(ms, "file"), FILE_SIZE);
              e == if file == "" then p else p.(edit := true, file := file)
            else
              e == p.(lastCh := -1, lastMs := 0,
                      render := if Lookup(ms, "handled") == Some(Bool(true)) then "" else p.render)
  {
    hide Stands, BoolAt, StringAt, PlainKey, Lookup, Tree, MembersOf, StringOf;
    NamesArePlain();
    var ms := MembersOf(Some(Tree(v)));
    StringOnTree(line, at, v, "action", NAME_SIZE);
    NameOf(Lookup(ms, "action"), "open_editor");
    StringOnTree(line, at, v, "file", FILE_SIZE);
    FlagOnTree(line, at, v, "handled");
    FlagIs(Lookup(ms, "handled"), true);
  }

  lemma FlagIs(v: Option<Json>, b: bool)
    ensures BoolOf(v) == Some(b) <==> v == Some(Bool(b))
  {
  }

  lemma ResultOnTree(line: string, at: nat, v: Layout, p: Panel)
    requires Stands(line, at, v)
    ensures at <= |line|
    ensures var ms := MembersOf(Some(Tree(v)));
            var e, q := ResultEffect(line, at, p), p.(modal := ModalAfter(ms, p.modal));
            e == if AsksReset(Some(Tree(v))) then Cleared(q) else ActionEffect(line, at, q)
    ensures (BoolAt(line, at, "force_sync") == Some(true)) == AsksReset(Some(Tree(v)))
  {
    hide Stands, BoolAt, ActionEffect, PlainKey, Lookup, Tree, MembersOf, Cleared;
    NamesArePlain();
    var ms := MembersOf(Some(Tree(v)));
    FlagOnTree(line, at, v, "force_sync");
    FlagIs(Lookup(ms, "force_sync"), true);
    FlagOnTree(line, at, v, "is_modal");
  }

  /** What a reply to the outstanding on_key does, by the value it spells.  The entry is reset exactly
      when the result has force_sync true; it becomes modal or not exactly if the result says so. */
  lemma ReplyOnTree(s: Host, line: Arrival, fate: Fate, p: Panel, open: Blank, ms: LMembers, id: int)
    requires Spells(line.text, open, ms) && Lookup(TreeMembers(ms), "method") != Some(Str("force_sync"))
    requires Lookup(TreeMembers(ms), "id") == Some(Int(id)) && INT_MIN <= id <= INT_MAX
    requires s.pends.key == Some(id) && s.pends.render != Some(id) && s.pends.hops != Some(id)
    ensures var result := Lookup(TreeMembers(ms), "result");
            var r, e := MembersOf(result), Effect(line.text, s.pends, p);
            var o := Replied(s, OnKey, line);
            && Answered(s, line, fate) == (if AsksReset(result) then Resynced(o, fate) else o)
            && (AsksReset(result) ==> e == Panel(ModalAfter(r, p.modal), "", "", false, "", -1, 0, 0))
            && (!AsksReset(result) ==> e.modal == ModalAfter(r, p.modal) && Acted(result, p, e))
  {
    hide Spaced, BoolAt, PlainKey, Lookup, Tree, Stands, Spells, MemberStart, Resynced, Replied, IsForceSync, LineId,
         ResultEffect, ActionEffect, ModalAfter, AsksReset;
    NamesArePlain();
    MethodOnTree(line.text, open, ms);
    IdOnTree(line.text, open, ms, id);
    var result := Lookup(TreeMembers(ms), "result");
    var v := StartOnTree(line.text, open, ms, "result");
    if result.Some? {
      var at := MemberStart(line.text, "result").value;
      ResultOnTree(line.text, at, v, p);
      ActionOnTree(line.text, at, v, p.(modal := ModalAfter(MembersOf(result), p.modal)));
    } else {
      NoResult(p.modal);
    }
  }

  lemma NoResult(was: bool)
    ensures !AsksReset(None) && ModalAfter(MembersOf(None), was) == was
  {
  }

  /** A result without a reset: with the action open_editor it leaves everything else and sets the file
      to edit if it names one; otherwise the last key is forgotten, and the cached rendering is emptied
      exactly when the key was handled.  A reply without a result does nothing. */
  ghost predicate Acted(result: Option<Json>, p: Panel, e: Panel) {
    var r := MembersOf(result);
    && e.hops == p.hops && e.modalMs == p.modalMs
    && (result.None? ==>
          && e.render == p.render
          && (e.edit, e.file) == (p.edit, p.file) && (e.lastCh, e.lastMs) == (p.lastCh, p.lastMs))
    && (result.Some? && Lookup(r, "action") == Some(Str("open_editor")) ==>
          && e.render == p.render && (e.lastCh, e.lastMs) == (p.lastCh, p.lastMs)
          && var file := StringOf(Lookup(r, "file"), FILE_SIZE);
             (e.edit, e.file) == if file == "" then (p.edit, p.file) else (true, file))
    && (result.Some? && Lookup(r, "action") != Some(Str("open_editor")) ==>
          && (e.edit, e.file) == (p.edit, p.file) && (e.lastCh, e.lastMs) == (-1, 0)
          && e.render == if Lookup(r, "handled") == Some(Bool(true)) then "" else p.render)
  }

  /** The file is exactly the string in the reply if it fits and has no byte that is not read back. */
  lemma FileIsExact(x: string)
    requires |x| < FILE_SIZE && forall i :: 0 <= i < |x| ==> !HexEscaped(x[i])
    ensures StringOf(Some(Str(x)), FILE_SIZE) == x
  {
    hide Unescape, Escape;
    UnescapeOfEscape(x);
    CountHexZero(x);
  }
}
