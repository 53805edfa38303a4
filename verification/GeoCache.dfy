/**
 The GeoIP plugin's cache (plugins/geoip/geoip.c): 256 slots, linear probing from a djb2
 hash, no deletion.  For keys that fit it is proved to be a finite map of at most 256 keys; what
 longer keys do to it is stated for every history.
 */
module GeoCache {
  import opened Options
  import opened Bits

  const SIZE: nat := 256
  const KEY_MAX: nat := 47
  const COUNTRY_MAX: nat := 31
  const PROVIDER_MAX: nat := 63
  const U32: nat := 0x1_0000_0000

  datatype Place = Place(country: string, provider: string)

  datatype Entry = Entry(ip: string, place: Place, valid: bool)

  function Clip(s: string, max: nat): string {
    if |s| <= max then s else s[..max]
  }

  /** What a store keeps of its arguments; a null string is stored as empty. */
  function Clipped(country: Option<string>, provider: Option<string>): Place {
    Place(if country.Some? then Clip(country.value, COUNTRY_MAX) else "",
          if provider.Some? then Clip(provider.value, PROVIDER_MAX) else "")
  }

  // ----- the hash

  function Djb2(ip: string): nat {
    if ip == "" then 5381 else (Djb2(ip[..|ip| - 1]) * 33 + ip[|ip| - 1] as nat % 256) % U32
  }

  function Hash(ip: string): (h: nat)
    ensures h < SIZE
  {
    Djb2(ip) % SIZE
  }

  method GeoHash(ip: string) returns (h: nat)
    ensures h == Hash(ip)
  {
    var acc := 5381;
    for i := 0 to |ip|
      invariant acc == Djb2(ip[..i]) && acc < U32
    {
      assert ip[..i + 1][..i] == ip[..i];
      ModAddMod(acc * 32, acc + ip[i] as nat % 256, U32);
      acc := ((acc * 32) % U32 + acc + ip[i] as nat % 256) % U32;
    }
    assert ip[..|ip|] == ip;
    return acc % SIZE;
  }

  // ----- the invariant of the slots

  /** The i-th slot probed for a key. */
  function Probe(ip: string, i: nat): (p: nat)
    ensures p < SIZE
  {
    (Hash(ip) + i) % SIZE
  }

  /** How many probes it takes from a key's hash to a slot. */
  function Distance(ip: string, slot: nat): (d: nat)
    requires slot < SIZE
    ensures d < SIZE && Probe(ip, d) == slot
    ensures forall i :: 0 <= i < SIZE && Probe(ip, i) == slot ==> i == d
  {
    if Hash(ip) <= slot then slot - Hash(ip) else slot + SIZE - Hash(ip)
  }

  predicate Unique(slots: seq<Entry>) {
    forall i, j :: 0 <= i < j < |slots| && slots[i].valid && slots[j].valid ==> slots[i].ip != slots[j].ip
  }

  /** Every slot between a key's hash and its position is taken. */
  ghost predicate Reachable(slots: seq<Entry>)
    requires |slots| == SIZE
  {
    forall j, i :: 0 <= j < SIZE && slots[j].valid && 0 <= i < Distance(slots[j].ip, j) ==>
                     slots[Probe(slots[j].ip, i)].valid
  }

  ghost predicate Sound(slots: seq<Entry>) {
    |slots| == SIZE && Unique(slots) && Reachable(slots)
  }

  // ----- the map it represents

  function ToMap(slots: seq<Entry>): map<string, Place> {
    if slots == [] then map[]
    else
      var e := slots[|slots| - 1];
      var m := ToMap(slots[..|slots| - 1]);
      if e.valid then m[e.ip := e.place] else m
  }

  function CountValid(slots: seq<Entry>): nat {
    if slots == [] then 0 else CountValid(slots[..|slots| - 1]) + if slots[|slots| - 1].valid then 1 else 0
  }

  lemma {:induction false} MapKeys(slots: seq<Entry>, ip: string)
    ensures ip in ToMap(slots) <==> exists i :: 0 <= i < |slots| && slots[i].valid && slots[i].ip == ip
  {
    if slots != [] {
      var n := |slots| - 1;
      MapKeys(slots[..n], ip);
      if exists i :: 0 <= i < |slots| && slots[i].valid && slots[i].ip == ip {
        var i :| 0 <= i < |slots| && slots[i].valid && slots[i].ip == ip;
        if i < n {
          assert slots[..n][i].valid;
        }
      }
    }
  }

  lemma {:induction false} MapValue(slots: seq<Entry>, i: nat)
    requires Unique(slots) && i < |slots| && slots[i].valid
    ensures slots[i].ip in ToMap(slots) && ToMap(slots)[slots[i].ip] == slots[i].place
  {
    if i < |slots| - 1 {
      MapValue(slots[..|slots| - 1], i);
    }
  }

  lemma {:induction false} MapSize(slots: seq<Entry>)
    requires Unique(slots)
    ensures |ToMap(slots)| == CountValid(slots)
  {
    if slots != [] {
      var n := |slots| - 1;
      MapSize(slots[..n]);
      if slots[n].valid {
        MapKeys(slots[..n], slots[n].ip);
      }
    }
  }

  lemma {:induction false} CountFull(slots: seq<Entry>)
    ensures CountValid(slots) <= |slots|
    ensures CountValid(slots) == |slots| <==> forall i :: 0 <= i < |slots| ==> slots[i].valid
  {
    if slots != [] {
      CountFull(slots[..|slots| - 1]);
    }
  }

  /** Writing a key that is in no other slot updates the map at that key only. */
  lemma MapUpdate(slots: seq<Entry>, j: nat, ip: string, place: Place)
    requires Unique(slots) && j < |slots|
    requires !slots[j].valid || slots[j].ip == ip
    requires forall i :: 0 <= i < |slots| && i != j && slots[i].valid ==> slots[i].ip != ip
    ensures Unique(slots[j := Entry(ip, place, true)])
    ensures ToMap(slots[j := Entry(ip, place, true)]) == ToMap(slots)[ip := place]
  {
    var slots', m := slots[j := Entry(ip, place, true)], ToMap(slots)[ip := place];
    forall k
      ensures k in ToMap(slots') <==> k in m
    {
      MapKeys(slots, k);
      MapKeys(slots', k);
      if k in ToMap(slots) && k != ip {
        var i :| 0 <= i < |slots| && slots[i].valid && slots[i].ip == k;
        assert slots'[i].valid && slots'[i].ip == k;
      }
      if k == ip {
        assert slots'[j].valid && slots'[j].ip == k;
      }
    }
    forall k | k in ToMap(slots')
      ensures ToMap(slots')[k] == m[k]
    {
      MapKeys(slots', k);
      var i :| 0 <= i < |slots'| && slots'[i].valid && slots'[i].ip == k;
      MapValue(slots', i);
      if i != j {
        MapValue(slots, i);
      }
    }
  }

  // ----- probing

  /** A probe run that meets a free slot, or all 256 slots, without the key: the key is absent. */
  lemma Absent(slots: seq<Entry>, ip: string, i: nat)
    requires Sound(slots) && i <= SIZE
    requires forall k :: 0 <= k < i ==> slots[Probe(ip, k)].ip != ip
    requires i < SIZE ==> !slots[Probe(ip, i)].valid
    ensures forall j :: 0 <= j < SIZE && slots[j].valid ==> slots[j].ip != ip
    ensures ip !in ToMap(slots)
  {
    forall j | 0 <= j < SIZE && slots[j].valid
      ensures slots[j].ip != ip
    {
      var d := Distance(slots[j].ip, j);
      assert Probe(slots[j].ip, d) == j;
      assert i < d ==> slots[Probe(slots[j].ip, i)].valid;
    }
    MapKeys(slots, ip);
  }

  /** Filling the first free slot of the probe run keeps every key reachable. */
  lemma FillKeepsReachable(slots: seq<Entry>, ip: string, i: nat, place: Place)
    requires Sound(slots) && i < SIZE
    requires forall k :: 0 <= k < i ==> slots[Probe(ip, k)].valid
    ensures Reachable(slots[Probe(ip, i) := Entry(ip, place, true)])
  {
    var p := Probe(ip, i);
    var slots' := slots[p := Entry(ip, place, true)];
    forall j, k | 0 <= j < SIZE && slots'[j].valid && 0 <= k < Distance(slots'[j].ip, j)
      ensures slots'[Probe(slots'[j].ip, k)].valid
    {
      if j == p {
        assert Distance(ip, p) == i;
      } else {
        assert slots[Probe(slots[j].ip, k)].valid;
      }
    }
  }

  lemma {:induction false} AllProbed(slots: seq<Entry>, ip: string)
    requires |slots| == SIZE && forall k :: 0 <= k < SIZE ==> slots[Probe(ip, k)].valid
    ensures forall j :: 0 <= j < SIZE ==> slots[j].valid
  {
    forall j | 0 <= j < SIZE
      ensures slots[j].valid
    {
      assert Probe(ip, Distance(ip, j)) == j;
    }
  }

  /** A map of at most 256 keys: a new key is dropped when the map is full. */
  function Stored(m: map<string, Place>, ip: string, place: Place): map<string, Place> {
    if ip in m || |m| < SIZE then m[ip := place] else m
  }

  // ----- the two operations on the slots, for any key

  /** What a lookup that has made i probes goes on to return. */
  function Lookup(slots: seq<Entry>, ip: string, i: nat): Option<Place>
    requires |slots| == SIZE && i <= SIZE
    decreases SIZE - i
  {
    if i == SIZE then None
    else
      var e := slots[Probe(ip, i)];
      if e.valid && e.ip == ip then Some(e.place)
      else if !e.valid then None
      else Lookup(slots, ip, i + 1)
  }

  /** What a store that has made i probes goes on to leave behind.  The key is clipped to the
      47 bytes a slot holds, but compared in full. */
  function Placed(slots: seq<Entry>, ip: string, place: Place, i: nat): (r: seq<Entry>)
    requires |slots| == SIZE && i <= SIZE
    ensures |r| == SIZE
    decreases SIZE - i
  {
    if i == SIZE then slots
    else
      var p := Probe(ip, i);
      if !slots[p].valid || slots[p].ip == ip then slots[p := Entry(Clip(ip, KEY_MAX), place, true)]
      else Placed(slots, ip, place, i + 1)
  }

  lemma {:induction false} LookupReadsMap(slots: seq<Entry>, ip: string, i: nat)
    requires Sound(slots) && i <= SIZE
    requires forall k :: 0 <= k < i ==> slots[Probe(ip, k)].ip != ip
    ensures Lookup(slots, ip, i) == if ip in ToMap(slots) then Some(ToMap(slots)[ip]) else None
    decreases SIZE - i
  {
    if i == SIZE || !slots[Probe(ip, i)].valid {
      Absent(slots, ip, i);
    } else if slots[Probe(ip, i)].ip == ip {
      MapValue(slots, Probe(ip, i));
    } else {
      LookupReadsMap(slots, ip, i + 1);
    }
  }

  lemma {:induction false} PlacedUpdatesMap(slots: seq<Entry>, ip: string, place: Place, i: nat)
    requires |slots| == SIZE && Sound(slots) && i <= SIZE && |ip| <= KEY_MAX
    requires forall k :: 0 <= k < i ==> slots[Probe(ip, k)].valid && slots[Probe(ip, k)].ip != ip
    ensures Sound(Placed(slots, ip, place, i))
    ensures ToMap(Placed(slots, ip, place, i)) == Stored(ToMap(slots), ip, place)
    ensures |ToMap(Placed(slots, ip, place, i))| <= SIZE
    decreases SIZE - i
  {
    hide Sound, ToMap, Probe;
    if i == SIZE {
      Absent(slots, ip, SIZE);
      AllProbed(slots, ip);
      FullMap(slots);
    } else if !slots[Probe(ip, i)].valid || slots[Probe(ip, i)].ip == ip {
      StoreHere(slots, ip, i, place);
    } else {
      PlacedUpdatesMap(slots, ip, place, i + 1);
    }
  }

  lemma FullMap(slots: seq<Entry>)
    requires Sound(slots) && forall j :: 0 <= j < SIZE ==> slots[j].valid
    ensures |ToMap(slots)| == SIZE
  {
    MapSize(slots);
    CountFull(slots);
  }

  // ----- keys that do not fit

  predicate ShortKeys(slots: seq<Entry>) {
    forall i :: 0 <= i < |slots| ==> |slots[i].ip| <= KEY_MAX
  }

  lemma {:induction false} PlacedShort(slots: seq<Entry>, ip: string, place: Place, i: nat)
    requires |slots| == SIZE && i <= SIZE && ShortKeys(slots)
    ensures ShortKeys(Placed(slots, ip, place, i))
    decreases SIZE - i
  {
    if i < SIZE {
      PlacedShort(slots, ip, place, i + 1);
    }
  }

  lemma {:induction false} LongKeyNeverFound(slots: seq<Entry>, ip: string, i: nat)
    requires |slots| == SIZE && i <= SIZE && ShortKeys(slots) && |ip| > KEY_MAX
    ensures Lookup(slots, ip, i).None?
    decreases SIZE - i
  {
    if i < SIZE {
      LongKeyNeverFound(slots, ip, i + 1);
    }
  }

  /** Some slot is free or holds the key. */
  ghost predicate HasRoom(slots: seq<Entry>, ip: string) {
    exists j :: 0 <= j < |slots| && (!slots[j].valid || slots[j].ip == ip)
  }

  /** A lookup passes slots taken by other keys. */
  lemma {:induction false} Walk(slots: seq<Entry>, ip: string, i: nat)
    requires |slots| == SIZE && i <= SIZE
    requires forall k :: 0 <= k < i ==> slots[Probe(ip, k)].valid && slots[Probe(ip, k)].ip != ip
    ensures Lookup(slots, ip, 0) == Lookup(slots, ip, i)
  {
    if i > 0 {
      Walk(slots, ip, i - 1);
    }
  }

  lemma Blocked(slots: seq<Entry>, ip: string)
    requires |slots| == SIZE
    requires forall k :: 0 <= k < SIZE ==> slots[Probe(ip, k)].valid && slots[Probe(ip, k)].ip != ip
    ensures !HasRoom(slots, ip)
  {
    forall j | 0 <= j < SIZE
      ensures slots[j].valid && slots[j].ip != ip
    {
      assert Probe(ip, Distance(ip, j)) == j;
    }
  }

  /** Where a store that has made i probes ends: at the first slot on the key's way that is free or
      holds the key; nowhere when there is none. */
  lemma {:induction false} PlacedAt(slots: seq<Entry>, ip: string, place: Place, i: nat) returns (d: nat)
    requires |slots| == SIZE && i <= SIZE
    requires forall k :: 0 <= k < i ==> slots[Probe(ip, k)].valid && slots[Probe(ip, k)].ip != ip
    ensures d <= SIZE && forall k :: 0 <= k < d ==> slots[Probe(ip, k)].valid && slots[Probe(ip, k)].ip != ip
    ensures d < SIZE ==> !slots[Probe(ip, d)].valid || slots[Probe(ip, d)].ip == ip
    ensures Placed(slots, ip, place, i) ==
            if d == SIZE then slots else slots[Probe(ip, d) := Entry(Clip(ip, KEY_MAX), place, true)]
    ensures d < SIZE <==> HasRoom(slots, ip)
    decreases SIZE - i
  {
    hide Probe;
    if i == SIZE {
      d := SIZE;
      Blocked(slots, ip);
    } else if !slots[Probe(ip, i)].valid || slots[Probe(ip, i)].ip == ip {
      d := i;
    } else {
      d := PlacedAt(slots, ip, place, i + 1);
    }
  }

  lemma ProbesDiffer(ip: string, i: nat, k: nat)
    requires i < SIZE && k < SIZE && i != k
    ensures Probe(ip, i) != Probe(ip, k)
  {
    assert Distance(ip, Probe(ip, i)) == i;
  }

  /** In any table a lookup returns what was just stored if and only if the key fits in a slot and
      some slot was free or held it. */
  lemma FindsWhatWasStored(slots: seq<Entry>, ip: string, place: Place)
    requires |slots| == SIZE && ShortKeys(slots)
    ensures Lookup(Placed(slots, ip, place, 0), ip, 0) == Some(place) <==> |ip| <= KEY_MAX && HasRoom(slots, ip)
  {
    var slots' := Placed(slots, ip, place, 0);
    if |ip| > KEY_MAX {
      PlacedShort(slots, ip, place, 0);
      LongKeyNeverFound(slots', ip, 0);
    } else {
      var d := PlacedAt(slots, ip, place, 0);
      forall k | 0 <= k < d
        ensures slots'[Probe(ip, k)] == slots[Probe(ip, k)]
      {
        if d < SIZE {
          ProbesDiffer(ip, d, k);
        }
      }
      Walk(slots', ip, d);
    }
  }

  // ----- every history of stores, long keys among them

  /** All slots on the way to a key's entry are taken by other keys. */
  ghost predicate ClearPath(slots: seq<Entry>, ip: string)
    requires |slots| == SIZE
  {
    forall j, i :: 0 <= j < SIZE && slots[j].valid && slots[j].ip == ip && 0 <= i < Distance(ip, j) ==>
                     slots[Probe(ip, i)].valid && slots[Probe(ip, i)].ip != ip
  }

  ghost predicate HasKey(slots: seq<Entry>, ip: string, j: nat) {
    j < |slots| && slots[j].valid && slots[j].ip == ip
  }

  lemma FindsEntry(slots: seq<Entry>, ip: string, j: nat)
    requires |slots| == SIZE && ClearPath(slots, ip) && HasKey(slots, ip, j)
    ensures Lookup(slots, ip, 0) == Some(slots[j].place)
  {
    Walk(slots, ip, Distance(ip, j));
  }

  lemma {:induction false} FindsNoEntry(slots: seq<Entry>, ip: string, i: nat)
    requires |slots| == SIZE && i <= SIZE && forall j: nat :: !HasKey(slots, ip, j)
    ensures Lookup(slots, ip, i).None?
    decreases SIZE - i
  {
    if i < SIZE {
      assert !HasKey(slots, ip, Probe(ip, i));
      FindsNoEntry(slots, ip, i + 1);
    }
  }

  lemma PathKept(slots: seq<Entry>, p: nat, e: Entry, ip: string)
    requires |slots| == SIZE && p < SIZE && ClearPath(slots, ip) && e.valid && e.ip != ip
    ensures ClearPath(slots[p := e], ip)
  {
    var slots' := slots[p := e];
    hide Probe, Distance;
    forall j, i | 0 <= j < SIZE && slots'[j].valid && slots'[j].ip == ip && 0 <= i < Distance(ip, j)
      ensures slots'[Probe(ip, i)].valid && slots'[Probe(ip, i)].ip != ip
    {
      assert slots[j] == slots'[j];
      assert slots[Probe(ip, i)].valid && slots[Probe(ip, i)].ip != ip;
    }
  }

  lemma SameEntries(slots: seq<Entry>, p: nat, e: Entry, ip: string, j: nat)
    requires p < |slots| && !HasKey(slots, ip, p) && e.ip != ip
    ensures HasKey(slots[p := e], ip, j) <==> HasKey(slots, ip, j)
    ensures HasKey(slots, ip, j) ==> slots[p := e][j] == slots[j]
  {
  }

  /** Filling a slot that does not hold the key with something else changes nothing for the key. */
  lemma OthersKeep(slots: seq<Entry>, p: nat, e: Entry, ip: string)
    requires |slots| == SIZE && p < SIZE && ClearPath(slots, ip) && !HasKey(slots, ip, p) && e.valid && e.ip != ip
    ensures ClearPath(slots[p := e], ip) && Lookup(slots[p := e], ip, 0) == Lookup(slots, ip, 0)
  {
    PathKept(slots, p, e, ip);
    hide ClearPath, Lookup, Probe;
    var slots' := slots[p := e];
    forall j: nat
      ensures HasKey(slots', ip, j) <==> HasKey(slots, ip, j)
    {
      SameEntries(slots, p, e, ip, j);
    }
    if j: nat :| HasKey(slots, ip, j) {
      SameEntries(slots, p, e, ip, j);
      FindsEntry(slots, ip, j);
      FindsEntry(slots', ip, j);
    } else {
      FindsNoEntry(slots, ip, 0);
      FindsNoEntry(slots', ip, 0);
    }
  }

  /** A store that ends at distance d leaves a clear path to its own key. */
  lemma OwnPathClear(slots: seq<Entry>, ip: string, d: nat, place: Place)
    requires |slots| == SIZE && d < SIZE && ClearPath(slots, ip)
    requires forall k :: 0 <= k < d ==> slots[Probe(ip, k)].valid && slots[Probe(ip, k)].ip != ip
    requires !slots[Probe(ip, d)].valid || slots[Probe(ip, d)].ip == ip
    ensures ClearPath(slots[Probe(ip, d) := Entry(ip, place, true)], ip)
  {
    var p := Probe(ip, d);
    var slots' := slots[p := Entry(ip, place, true)];
    forall j, i | 0 <= j < SIZE && slots'[j].valid && slots'[j].ip == ip && 0 <= i < Distance(ip, j)
      ensures slots'[Probe(ip, i)].valid && slots'[Probe(ip, i)].ip != ip
    {
      if j == p {
        ProbesDiffer(ip, d, i);
      } else {
        OnlyEntry(slots, ip, d, j);
      }
    }
  }

  lemma OnlyEntry(slots: seq<Entry>, ip: string, d: nat, j: nat)
    requires |slots| == SIZE && d < SIZE && ClearPath(slots, ip) && HasKey(slots, ip, j)
    requires forall k :: 0 <= k < d ==> slots[Probe(ip, k)].valid && slots[Probe(ip, k)].ip != ip
    requires !slots[Probe(ip, d)].valid || slots[Probe(ip, d)].ip == ip
    ensures j == Probe(ip, d)
  {
    var e := Distance(ip, j);
    assert slots[Probe(ip, e)].ip == ip;
  }

  datatype Call = Call(ip: string, place: Place)

  function Empty(): (slots: seq<Entry>)
    ensures |slots| == SIZE && forall i :: 0 <= i < SIZE ==> slots[i] == Entry("", Place("", ""), false)
  {
    seq(SIZE, _ => Entry("", Place("", ""), false))
  }

  /** The slots after a history of stores. */
  function Replay(h: seq<Call>): (slots: seq<Entry>)
    ensures |slots| == SIZE
  {
    if h == [] then Empty() else Placed(Replay(h[..|h| - 1]), h[|h| - 1].ip, h[|h| - 1].place, 0)
  }

  /** What a lookup should give: the value of the latest store of the key that found room. */
  ghost function Expected(h: seq<Call>, ip: string): Option<Place> {
    if h == [] then None
    else
      var before, last := h[..|h| - 1], h[|h| - 1];
      if last.ip == ip && HasRoom(Replay(before), ip) then Some(last.place) else Expected(before, ip)
  }

  ghost predicate NotClippedTo(h: seq<Call>, ip: string) {
    forall i :: 0 <= i < |h| && |h[i].ip| > KEY_MAX ==> Clip(h[i].ip, KEY_MAX) != ip
  }

  /** After every history of stores, whatever keys it has, a lookup of a key that fits gives the
      value of its latest store that found room, unless a longer key was clipped to it; a key
      that does not fit is never found. */
  lemma {:induction false} LookupAfterHistory(h: seq<Call>, ip: string)
    ensures ShortKeys(Replay(h))
    ensures |ip| <= KEY_MAX && NotClippedTo(h, ip) ==>
              ClearPath(Replay(h), ip) && Lookup(Replay(h), ip, 0) == Expected(h, ip)
    ensures |ip| > KEY_MAX ==> Lookup(Replay(h), ip, 0).None?
  {
    hide Placed, Lookup, ClearPath;
    if h == [] {
      EmptyFindsNothing(ip);
    } else {
      var before, last := h[..|h| - 1], h[|h| - 1];
      LookupAfterHistory(before, ip);
      PlacedShort(Replay(before), last.ip, last.place, 0);
      if |ip| <= KEY_MAX && NotClippedTo(h, ip) {
        assert NotClippedTo(before, ip);
        StepAfterHistory(Replay(before), last, ip);
      }
    }
    if |ip| > KEY_MAX {
      LongKeyNeverFound(Replay(h), ip, 0);
    }
  }

  lemma EmptyFindsNothing(ip: string)
    ensures ShortKeys(Empty()) && ClearPath(Empty(), ip) && Lookup(Empty(), ip, 0).None?
  {
  }

  lemma StepAfterHistory(slots: seq<Entry>, c: Call, ip: string)
    requires |slots| == SIZE && ShortKeys(slots) && ClearPath(slots, ip) && |ip| <= KEY_MAX
    requires |c.ip| > KEY_MAX ==> Clip(c.ip, KEY_MAX) != ip
    ensures var slots' := Placed(slots, c.ip, c.place, 0);
            && ClearPath(slots', ip)
            && Lookup(slots', ip, 0) == if c.ip == ip && HasRoom(slots, ip) then Some(c.place) else Lookup(slots, ip, 0)
  {
    var d := PlacedAt(slots, c.ip, c.place, 0);
    hide Placed, Lookup, Probe;
    if d < SIZE {
      if c.ip == ip {
        OwnPathClear(slots, ip, d, c.place);
        FindsWhatWasStored(slots, ip, c.place);
      } else {
        OthersKeep(slots, Probe(c.ip, d), Entry(Clip(c.ip, KEY_MAX), c.place, true), ip);
      }
    }
  }

  // ----- exactly which keys always get what they should

  /** A longer key that is cut to a given 47-byte key and starts its probing at the same slot. */
  function Twin(ip: string): string {
    ip + [1 as char, ((64 * (256 - Hash(ip)) + 223) % 256) as char]
  }

  lemma SameByte(x: int, y: int, k: int)
    requires x == y + 256 * k
    ensures x % 256 == y % 256
  {
  }

  lemma HashSnoc(ip: string, c: char)
    requires c as nat < 256
    ensures Hash(ip + [c]) == (Hash(ip) * 33 + c as nat) % 256
  {
    var t := ip + [c];
    assert t[..|t| - 1] == ip;
    var d: nat, x: nat := Djb2(ip), c as nat;
    SameByte(d * 33 + x, (d * 33 + x) % U32, 0x100_0000 * ((d * 33 + x) / U32));
    SameByte(d * 33 + x, Hash(ip) * 33 + x, 33 * (d / 256));
  }

  lemma TwinSum(h: int, a: int, b: int, i: int, j: int)
    requires 0 <= h < 256 && h * 33 + 1 == 256 * i + a && 64 * (256 - h) + 223 == 256 * j + b
    ensures (a * 33 + b) % 256 == h && b != 0
  {
    assert b == 2 * (32 * (256 - h) + 111 - 128 * j) + 1;
    DivModUnique(a * 33 + b, 4 * h + 65 - 33 * i - j, h, 256);
  }

  lemma TwinArithmetic(h: nat)
    requires h < 256
    ensures ((h * 33 + 1) % 256 * 33 + (64 * (256 - h) + 223) % 256) % 256 == h
    ensures (64 * (256 - h) + 223) % 256 != 0
  {
    var x, y := h * 33 + 1, 64 * (256 - h) + 223;
    TwinSum(h, x % 256, y % 256, x / 256, y / 256);
  }

  /** Such a key has no NUL in it either. */
  lemma TwinHash(ip: string)
    ensures Hash(Twin(ip)) == Hash(ip) && '\0' !in Twin(ip)[|ip|..]
  {
    hide Djb2, Hash;
    var h := Hash(ip);
    TwinArithmetic(h);
    var c := ((64 * (256 - h) + 223) % 256) as char;
    assert Twin(ip) == ip + [1 as char] + [c] && Twin(ip)[|ip|..] == [1 as char, c];
    HashSnoc(ip, 1 as char);
    HashSnoc(ip + [1 as char], c);
  }

  lemma OneStore(ip: string, place: Place)
    ensures Replay([Call(ip, place)]) == Empty()[Hash(ip) := Entry(Clip(ip, KEY_MAX), place, true)]
    ensures forall k :: Expected([Call(ip, place)], k) == if k == ip then Some(place) else None
  {
    assert [Call(ip, place)][..0] == [];
    assert Probe(ip, 0) == Hash(ip);
    assert !Empty()[0].valid;
    assert HasRoom(Empty(), ip);
  }

  /** Every key of exactly 47 bytes can be disturbed: after one store of a longer key, which is cut
      to it, it is found though it was never stored. */
  lemma TwinIsFound(ip: string, place: Place)
    requires |ip| == KEY_MAX
    ensures var h := [Call(Twin(ip), place)];
            Lookup(Replay(h), ip, 0) == Some(place) && Expected(h, ip) == None
  {
    hide Hash, Expected, Replay;
    TwinHash(ip);
    OneStore(Twin(ip), place);
    assert Clip(Twin(ip), KEY_MAX) == ip;
    assert Probe(ip, 0) == Hash(ip);
  }

  lemma LongIsNotFound(ip: string, place: Place)
    requires |ip| > KEY_MAX
    ensures var h := [Call(ip, place)];
            Lookup(Replay(h), ip, 0) == None && Expected(h, ip) == Some(place)
  {
    hide Expected, Replay, Lookup;
    OneStore(ip, place);
    LookupAfterHistory([Call(ip, place)], ip);
  }

  /** A key is looked up as it should be after every history of stores if and only if it is shorter
      than the 47 bytes of a slot. */
  lemma ShortKeysAlwaysFound(ip: string)
    ensures (forall h :: Lookup(Replay(h), ip, 0) == Expected(h, ip)) <==> |ip| < KEY_MAX
  {
    hide Expected, Replay, Lookup;
    var place := Place("", "");
    if |ip| < KEY_MAX {
      forall h
        ensures Lookup(Replay(h), ip, 0) == Expected(h, ip)
      {
        LookupAfterHistory(h, ip);
      }
    } else if |ip| == KEY_MAX {
      TwinIsFound(ip, place);
      assert Lookup(Replay([Call(Twin(ip), place)]), ip, 0) != Expected([Call(Twin(ip), place)], ip);
    } else {
      LongIsNotFound(ip, place);
      assert Lookup(Replay([Call(ip, place)]), ip, 0) != Expected([Call(ip, place)], ip);
    }
  }

  class Cache {
    const slots: array<Entry>
    ghost var history: seq<Call>

    /** The slots hold what the stores so far left in them. */
    ghost predicate Valid()
      reads this, slots
    {
      slots.Length == SIZE && slots[..] == Replay(history)
    }

    /** The slots represent a map, as they do while only keys that fit have been stored. */
    ghost predicate IsMap()
      reads slots
    {
      Sound(slots[..])
    }

    ghost function Contents(): map<string, Place>
      reads slots
    {
      ToMap(slots[..])
    }

    constructor ()
      ensures Valid() && history == [] && IsMap() && Contents() == map[] && fresh(slots)
    {
      slots := new Entry[SIZE](_ => Entry("", Place("", ""), false));
      history := [];
      new;
      assert slots[..] == Empty();
      MapOfFree(slots[..]);
    }

    /** The value last stored for the key, or nothing; see LookupAfterHistory. */
    method Find(ip: string) returns (r: Option<Place>)
      requires Valid()
      ensures r == Lookup(Replay(history), ip, 0)
      ensures IsMap() ==> r == if ip in Contents() then Some(Contents()[ip]) else None
    {
      hide Sound, ToMap, Hash, Replay;
      if IsMap() {
        LookupReadsMap(slots[..], ip, 0);
      }
      var idx := GeoHash(ip);
      for i := 0 to SIZE
        invariant Lookup(slots[..], ip, i) == Lookup(slots[..], ip, 0)
      {
        var p := (idx + i) % SIZE;
        assert p == Probe(ip, i);
        if slots[p].valid && slots[p].ip == ip {
          return Some(slots[p].place);
        }
        if !slots[p].valid {
          return None;
        }
      }
      return None;
    }

    /** Any store extends the history; of a key that fits, on slots that represent a map, it updates
        that map. */
    method Store(ip: string, country: Option<string>, provider: Option<string>)
      requires Valid()
      modifies this, slots
      ensures Valid() && history == old(history) + [Call(ip, Clipped(country, provider))]
      ensures country.Some? && |country.value| <= 31 ==> history[|history| - 1].place.country == country.value
      ensures provider.Some? && |provider.value| <= 63 ==> history[|history| - 1].place.provider == provider.value
      ensures old(IsMap()) && |ip| <= KEY_MAX ==>
                IsMap() && |Contents()| <= SIZE && Contents() == Stored(old(Contents()), ip, Clipped(country, provider))
    {
      hide Sound, ToMap, Hash, Stored, Clipped, Replay;
      KeptWhole(country, provider);
      ghost var before, place := slots[..], Clipped(country, provider);
      if IsMap() && |ip| <= KEY_MAX {
        PlacedUpdatesMap(before, ip, place, 0);
      }
      ReplaySnoc(history, Call(ip, place));
      history := history + [Call(ip, place)];
      var idx := GeoHash(ip);
      for i := 0 to SIZE
        invariant slots[..] == before
        invariant Placed(before, ip, place, i) == Placed(before, ip, place, 0)
      {
        var p := (idx + i) % SIZE;
        assert p == Probe(ip, i);
        if !slots[p].valid || slots[p].ip == ip {
          slots[p] := Entry(Clip(ip, KEY_MAX), Clipped(country, provider), true);
          return;
        }
      }
    }
  }

  lemma KeptWhole(country: Option<string>, provider: Option<string>)
    ensures country.Some? && |country.value| <= 31 ==> Clipped(country, provider).country == country.value
    ensures provider.Some? && |provider.value| <= 63 ==> Clipped(country, provider).provider == provider.value
  {
  }

  lemma ReplaySnoc(h: seq<Call>, c: Call)
    ensures Replay(h + [c]) == Placed(Replay(h), c.ip, c.place, 0)
  {
    hide Placed;
    assert (h + [c])[..|h|] == h;
  }

  lemma {:induction false} MapOfFree(slots: seq<Entry>)
    requires forall i :: 0 <= i < |slots| ==> !slots[i].valid
    ensures ToMap(slots) == map[]
  {
    if slots != [] {
      MapOfFree(slots[..|slots| - 1]);
    }
  }

  /** What the store does when its probe run stops at a free slot or at the key itself. */
  lemma StoreHere(slots: seq<Entry>, ip: string, i: nat, place: Place)
    requires Sound(slots) && i < SIZE
    requires forall k :: 0 <= k < i ==> slots[Probe(ip, k)].valid && slots[Probe(ip, k)].ip != ip
    requires !slots[Probe(ip, i)].valid || slots[Probe(ip, i)].ip == ip
    ensures var slots' := slots[Probe(ip, i) := Entry(ip, place, true)];
            Sound(slots') && ToMap(slots') == Stored(ToMap(slots), ip, place) && |ToMap(slots')| <= SIZE
  {
    var p := Probe(ip, i);
    var slots' := slots[p := Entry(ip, place, true)];
    if !slots[p].valid {
      Absent(slots, ip, i);
      MapSize(slots);
      CountFull(slots);
    } else {
      assert forall j :: 0 <= j < SIZE && j != p && slots[j].valid ==> slots[j].ip != ip;
      MapValue(slots, p);
    }
    MapUpdate(slots, p, ip, place);
    FillKeepsReachable(slots, ip, i, place);
    MapSize(slots');
    CountFull(slots');
  }
}
