/** The eight-slot key ring of a plugin entry (src/plugin/plugin.c:40-71). */
module KeyQueue {
  import opened Options

  const CAPACITY: nat := 8

  datatype KeyEvent = KeyEvent(ch: int, modal: bool)

  /** The keys waiting in the slots, oldest first. */
  function Waiting(slots: seq<KeyEvent>, head: nat, count: nat): (q: seq<KeyEvent>)
    requires |slots| == CAPACITY
    ensures |q| == count
  {
    seq(count, i requires 0 <= i < count => slots[(head + i) % CAPACITY])
  }

  lemma WaitingLess(slots: seq<KeyEvent>, head: nat, count: nat)
    requires |slots| == CAPACITY && head < CAPACITY && 0 < count
    ensures Waiting(slots, head, count) == [slots[head]] + Waiting(slots, (head + 1) % CAPACITY, count - 1)
  {
    var q, rest := Waiting(slots, head, count), Waiting(slots, (head + 1) % CAPACITY, count - 1);
    forall i | 0 <= i < count - 1
      ensures q[i + 1] == rest[i]
    {
      assert (head + (i + 1)) % CAPACITY == ((head + 1) % CAPACITY + i) % CAPACITY;
    }
    assert q[0] == slots[head];
  }

  lemma WaitingMore(slots: seq<KeyEvent>, head: nat, count: nat, e: KeyEvent)
    requires |slots| == CAPACITY && head < CAPACITY && count < CAPACITY
    ensures Waiting(slots[(head + count) % CAPACITY := e], head, count + 1) == Waiting(slots, head, count) + [e]
  {
    var q := Waiting(slots[(head + count) % CAPACITY := e], head, count + 1);
    forall i | 0 <= i < count
      ensures q[i] == Waiting(slots, head, count)[i]
    {
      assert (head + i) % CAPACITY != (head + count) % CAPACITY;
    }
  }

  class Queue {
    const slots: array<KeyEvent>
    var head: nat
    var count: nat

    ghost predicate Valid()
      reads this
    {
      slots.Length == CAPACITY && head < CAPACITY && count <= CAPACITY
    }

    ghost function Contents(): (q: seq<KeyEvent>)
      requires Valid()
      reads this, slots
      ensures |q| == count
    {
      Waiting(slots[..], head, count)
    }

    constructor ()
      ensures Valid() && Contents() == [] && fresh(slots)
    {
      slots := new KeyEvent[CAPACITY](_ => KeyEvent(0, false));
      head, count := 0, 0;
    }

    method Reset()
      requires Valid()
      modifies this
      ensures Valid() && Contents() == []
    {
      head, count := 0, 0;
    }

    method Enqueue(e: KeyEvent) returns (ok: bool)
      requires Valid()
      modifies this, slots
      ensures Valid() && ok == (|old(Contents())| < CAPACITY)
      ensures Contents() == if ok then old(Contents()) + [e] else old(Contents())
    {
      if count >= CAPACITY {
        return false;
      }
      hide Waiting;
      WaitingMore(slots[..], head, count, e);
      slots[(head + count) % CAPACITY] := e;
      count := count + 1;
      return true;
    }

    method Dequeue() returns (r: Option<KeyEvent>)
      requires Valid()
      modifies this
      ensures Valid() && (r.None? <==> old(Contents()) == [])
      ensures r.None? ==> Contents() == old(Contents())
      ensures r.Some? ==> old(Contents()) == [r.value] + Contents()
    {
      if count == 0 {
        return None;
      }
      hide Waiting;
      WaitingLess(slots[..], head, count);
      r := Some(slots[head]);
      head := (head + 1) % CAPACITY;
      count := count - 1;
    }
  }
}
