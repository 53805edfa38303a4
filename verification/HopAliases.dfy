/**
 Addresses seen at one hop (src/io/logic.c:77-135): the first address is the primary, up to
 three others are aliases, and when all three are taken the least-seen alias makes room.
 */
module HopAliases {

  const MAX_ALIASES: nat := 3

  datatype Alias = Alias(addr: string, recv: nat)

  /** `discarded` adds up the counts that evictions threw away; the original keeps no such sum. */
  datatype Hop = Hop(addr: string, primaryRecv: nat, aliases: seq<Alias>, discarded: nat)

  const UNSEEN: Hop := Hop("", 0, [], 0)

  /** The first alias with this address, or how many aliases there are. */
  function Find(aliases: seq<Alias>, addr: string): (i: nat)
    ensures i <= |aliases|
    ensures i < |aliases| ==> aliases[i].addr == addr
    ensures forall j :: 0 <= j < i ==> aliases[j].addr != addr
  {
    if aliases == [] then 0
    else if aliases[0].addr == addr then 0
    else 1 + Find(aliases[1..], addr)
  }

  /** The first of the least-seen aliases. */
  function LeastSeen(aliases: seq<Alias>): (i: nat)
    requires aliases != []
    ensures i < |aliases|
    ensures forall j :: 0 <= j < |aliases| ==> aliases[i].recv <= aliases[j].recv
    ensures forall j :: 0 <= j < i ==> aliases[i].recv < aliases[j].recv
  {
    if |aliases| == 1 then 0
    else
      var last := |aliases| - 1;
      var i := LeastSeen(aliases[..last]);
      if aliases[last].recv < aliases[i].recv then last else i
  }

  function Observe(h: Hop, addr: string): Hop {
    if h.addr == "" then h.(addr := addr, primaryRecv := 1)
    else if h.addr == addr then h.(primaryRecv := h.primaryRecv + 1)
    else
      var i := Find(h.aliases, addr);
      if i < |h.aliases| then h.(aliases := h.aliases[i := Alias(addr, h.aliases[i].recv + 1)])
      else if |h.aliases| < MAX_ALIASES then h.(aliases := h.aliases + [Alias(addr, 1)])
      else
        var m := LeastSeen(h.aliases);
        h.(aliases := h.aliases[m := Alias(addr, 1)], discarded := h.discarded + h.aliases[m].recv)
  }

  /** The hop after a whole history of observed addresses. */
  function Replay(history: seq<string>): Hop {
    if history == [] then UNSEEN
    else Observe(Replay(history[..|history| - 1]), history[|history| - 1])
  }

  function Count(history: seq<string>, addr: string): nat {
    if history == [] then 0
    else Count(history[..|history| - 1], addr) + if history[|history| - 1] == addr then 1 else 0
  }

  function Sum(aliases: seq<Alias>): nat {
    if aliases == [] then 0 else Sum(aliases[..|aliases| - 1]) + aliases[|aliases| - 1].recv
  }

  ghost predicate Distinct(h: Hop) {
    && |h.aliases| <= MAX_ALIASES
    && (forall i :: 0 <= i < |h.aliases| ==> h.aliases[i].addr != h.addr && h.aliases[i].addr != "")
    && (forall i, j :: 0 <= i < j < |h.aliases| ==> h.aliases[i].addr != h.aliases[j].addr)
    && (h.addr == "" ==> h == UNSEEN)
  }

  ghost predicate RealAddresses(history: seq<string>) {
    forall i :: 0 <= i < |history| ==> history[i] != ""
  }

  lemma ObserveDistinct(h: Hop, addr: string)
    requires Distinct(h) && addr != ""
    ensures Distinct(Observe(h, addr))
  {
  }

  lemma {:induction false} SumUpdate(aliases: seq<Alias>, i: nat, a: Alias)
    requires i < |aliases|
    ensures Sum(aliases[i := a]) + aliases[i].recv == Sum(aliases) + a.recv
  {
    var n := |aliases| - 1;
    if i == n {
      assert aliases[i := a][..n] == aliases[..n];
    } else {
      assert aliases[i := a][..n] == aliases[..n][i := a];
      SumUpdate(aliases[..n], i, a);
    }
  }

  lemma SumSnoc(aliases: seq<Alias>, a: Alias)
    ensures Sum(aliases + [a]) == Sum(aliases) + a.recv
  {
    assert (aliases + [a])[..|aliases|] == aliases;
  }

  function Kept(h: Hop): nat {
    h.primaryRecv + Sum(h.aliases) + h.discarded
  }

  /** Each observation is counted exactly once. */
  lemma ObserveCountsOne(h: Hop, addr: string)
    requires Distinct(h)
    ensures Kept(Observe(h, addr)) == Kept(h) + 1
  {
    var i := Find(h.aliases, addr);
    if h.addr == "" || h.addr == addr {
    } else if i < |h.aliases| {
      SumUpdate(h.aliases, i, Alias(addr, h.aliases[i].recv + 1));
    } else if |h.aliases| < MAX_ALIASES {
      SumSnoc(h.aliases, Alias(addr, 1));
    } else {
      SumUpdate(h.aliases, LeastSeen(h.aliases), Alias(addr, 1));
    }
  }

  /** A new address at a full hop replaces an alias with the smallest count of the three, and
      exactly that count is thrown away; nothing else ever is. */
  lemma EvictionDiscardsMinimum(h: Hop, addr: string)
    requires Distinct(h)
    ensures var h' := Observe(h, addr);
            if h.addr != "" && h.addr != addr && |h.aliases| == MAX_ALIASES
               && forall i :: 0 <= i < MAX_ALIASES ==> h.aliases[i].addr != addr
            then exists m :: 0 <= m < MAX_ALIASES && h'.aliases == h.aliases[m := Alias(addr, 1)]
                        && h'.discarded == h.discarded + h.aliases[m].recv
                        && forall j :: 0 <= j < MAX_ALIASES ==> h.aliases[m].recv <= h.aliases[j].recv
            else h'.discarded == h.discarded
  {
    var i := Find(h.aliases, addr);
    if h.addr != "" && h.addr != addr && i == |h.aliases| == MAX_ALIASES {
      var m := LeastSeen(h.aliases);
      assert Observe(h, addr).aliases == h.aliases[m := Alias(addr, 1)];
    }
  }

  /** What the counts mean for a history: the primary is the first address and its count is
      exact; an alias never claims more than was seen, and is exact while nothing was evicted. */
  ghost predicate Faithful(h: Hop, history: seq<string>) {
    && (history != [] ==> h.addr == history[0])
    && (h.addr != "" ==> h.primaryRecv == Count(history, h.addr))
    && (forall i :: 0 <= i < |h.aliases| ==> 1 <= h.aliases[i].recv <= Count(history, h.aliases[i].addr))
    && (h.discarded == 0 ==>
          forall i :: 0 <= i < |h.aliases| ==> h.aliases[i].recv == Count(history, h.aliases[i].addr))
  }

  lemma CountSnoc(history: seq<string>, addr: string)
    ensures forall x :: Count(history + [addr], x) == Count(history, x) + if x == addr then 1 else 0
  {
    assert (history + [addr])[..|history|] == history;
  }

  lemma {:induction false} CountOfUnseen(history: seq<string>, addr: string)
    requires forall i :: 0 <= i < |history| ==> history[i] != addr
    ensures Count(history, addr) == 0
  {
    if history != [] {
      CountOfUnseen(history[..|history| - 1], addr);
    }
  }

  /** While nothing was evicted, the hop knows every address it has seen. */
  ghost predicate Complete(h: Hop, history: seq<string>) {
    h.discarded == 0 ==>
      forall k :: 0 <= k < |history| ==>
                    history[k] == h.addr || exists i :: 0 <= i < |h.aliases| && h.aliases[i].addr == history[k]
  }

  lemma ObserveComplete(h: Hop, history: seq<string>, addr: string)
    requires Distinct(h) && Complete(h, history) && (history == [] <==> h.addr == "")
    requires forall i :: 0 <= i < |h.aliases| ==> h.aliases[i].recv >= 1
    ensures Complete(Observe(h, addr), history + [addr])
  {
    var h', all := Observe(h, addr), history + [addr];
    if h'.discarded == 0 {
      forall k | 0 <= k < |all|
        ensures all[k] == h'.addr || exists i :: 0 <= i < |h'.aliases| && h'.aliases[i].addr == all[k]
      {
        if k < |history| && all[k] != h.addr {
          var i :| 0 <= i < |h.aliases| && h.aliases[i].addr == history[k];
          assert h'.aliases[i].addr == history[k];
        } else if k == |history| && addr != h'.addr {
          var i := Find(h.aliases, addr);
          assert h'.aliases[i].addr == addr;
        }
      }
    }
  }

  lemma ObserveFaithful(h: Hop, history: seq<string>, addr: string)
    requires Distinct(h) && Faithful(h, history) && Complete(h, history) && addr != ""
    requires history == [] <==> h.addr == ""
    ensures Faithful(Observe(h, addr), history + [addr])
  {
    CountSnoc(history, addr);
    if h.addr != "" && h.addr != addr && Find(h.aliases, addr) == |h.aliases| && h.discarded == 0 {
      CountOfUnseen(history, addr);
    }
    if history == [] {
      assert Count(history, addr) == 0;
    }
    hide Count, Complete, Distinct, Find, LeastSeen;
  }

  ghost predicate Good(h: Hop, history: seq<string>) {
    && Distinct(h) && Faithful(h, history) && Complete(h, history)
    && Kept(h) == |history|
    && (history == [] <==> h.addr == "")
  }

  lemma ObserveGood(h: Hop, history: seq<string>, addr: string)
    requires Good(h, history) && addr != ""
    ensures Good(Observe(h, addr), history + [addr])
  {
    assert forall i :: 0 <= i < |h.aliases| ==> h.aliases[i].recv >= 1;
    hide Distinct, Faithful, Complete, Kept;
    ObserveDistinct(h, addr);
    ObserveCountsOne(h, addr);
    ObserveFaithful(h, history, addr);
    ObserveComplete(h, history, addr);
  }

  lemma {:induction false} ReplayGood(history: seq<string>)
    requires RealAddresses(history)
    ensures Good(Replay(history), history)
  {
    if history != [] {
      hide Good, Observe;
      var prefix, addr := history[..|history| - 1], history[|history| - 1];
      assert prefix + [addr] == history;
      ReplayGood(prefix);
      ObserveGood(Replay(prefix), prefix, addr);
    }
  }

  lemma ReplaySnoc(history: seq<string>, addr: string)
    requires RealAddresses(history)
    ensures Replay(history + [addr]) == Observe(Replay(history), addr)
    ensures Distinct(Replay(history))
    ensures addr != "" ==> RealAddresses(history + [addr])
  {
    assert (history + [addr])[..|history|] == history;
    ReplayGood(history);
  }

  class HopInfo {
    var addr: string
    var recv: nat
    var primaryRecv: nat
    var aliasCount: nat
    const aliases: array<Alias>
    ghost var discarded: nat
    ghost var history: seq<string>

    ghost function View(): Hop
      requires aliasCount <= aliases.Length
      reads this, aliases
    {
      Hop(addr, primaryRecv, aliases[..aliasCount], discarded)
    }

    ghost predicate Valid()
      reads this, aliases
    {
      && aliases.Length == MAX_ALIASES && aliasCount <= MAX_ALIASES
      && RealAddresses(history) && recv == |history|
      && View() == Replay(history)
    }

    constructor ()
      ensures Valid() && history == [] && fresh(aliases)
    {
      addr, recv, primaryRecv, aliasCount := "", 0, 0, 0;
      aliases := new Alias[MAX_ALIASES](_ => Alias("", 0));
      discarded, history := 0, [];
    }

    /** update_state for a reply from `from`: the hop stays the one its history determines. */
    method Update(from: string)
      requires Valid() && from != ""
      modifies this, aliases
      ensures Valid() && history == old(history) + [from]
    {
      hide Replay, Good, Distinct, Observe;
      ReplayGood(history);
      ReplaySnoc(history, from);
      recv := recv + 1;
      history := history + [from];
      AddOrUpdate(from);
    }

    method AddOrUpdate(from: string)
      requires aliases.Length == MAX_ALIASES && aliasCount <= MAX_ALIASES && from != "" && Distinct(View())
      modifies `addr, `primaryRecv, `aliasCount, `discarded, aliases
      ensures aliasCount <= MAX_ALIASES && View() == Observe(old(View()), from)
    {
      ghost var before := View();
      if addr == "" {
        addr, primaryRecv := from, 1;
        return;
      }
      if addr == from {
        primaryRecv := primaryRecv + 1;
        return;
      }
      var i := 0;
      while i < aliasCount
        invariant i <= aliasCount
        invariant forall j :: 0 <= j < i ==> aliases[j].addr != from
      {
        if aliases[i].addr == from {
          aliases[i] := aliases[i].(recv := aliases[i].recv + 1);
          assert Find(before.aliases, from) == i;
          return;
        }
        i := i + 1;
      }
      assert Find(before.aliases, from) == |before.aliases|;
      if aliasCount < MAX_ALIASES {
        aliases[aliasCount] := Alias(from, 1);
        aliasCount := aliasCount + 1;
      } else {
        var min := Minimum();
        discarded := discarded + aliases[min].recv;
        aliases[min] := Alias(from, 1);
      }
    }

    method Minimum() returns (min: nat)
      requires aliases.Length == aliasCount == MAX_ALIASES
      ensures min < MAX_ALIASES && min == LeastSeen(aliases[..aliasCount])
    {
      var minRecv := aliases[0].recv;
      min := 0;
      for i := 1 to MAX_ALIASES
        invariant min < i && minRecv == aliases[min].recv
        invariant min == LeastSeen(aliases[..i])
      {
        assert aliases[..i + 1][..i] == aliases[..i];
        if aliases[i].recv < minRecv {
          minRecv := aliases[i].recv;
          min := i;
        }
      }
    }
  }

  /** Over every observation sequence: addresses stay distinct, at most three aliases, and
      primary + aliases + evicted counts add up to what was received. */
  lemma HopConservation(history: seq<string>)
    requires RealAddresses(history)
    ensures var h := Replay(history);
            && |h.aliases| <= MAX_ALIASES
            && (forall i :: 0 <= i < |h.aliases| ==> h.aliases[i].addr != h.addr)
            && (forall i, j :: 0 <= i < j < |h.aliases| ==> h.aliases[i].addr != h.aliases[j].addr)
            && h.primaryRecv + Sum(h.aliases) + h.discarded == |history|
            && (history != [] ==> h.addr == history[0] && h.primaryRecv == Count(history, history[0]))
  {
    ReplayGood(history);
  }
}
