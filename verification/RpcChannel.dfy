/**
 The two byte loops of the plugin channel (src/json/json_rpc.c:79-101, 151-237, 319-356):
 writing a message through partial writes, and reassembling lines from arbitrary reads.  The
 operating system is the pipe with the bytes still to be read and a list of turns chosen by the
 caller: what each write, poll and read came to.  Bytes may sit in the pipe without a poll
 seeing them yet.
 */
module RpcChannel {
  import opened Framing

  const DISCARD_READS: nat := 64

  /** What one write call came to. */
  datatype Write = Wrote(n: nat) | WriteInterrupted | WriteFailed

  /** What one turn of a receive loop came to: an interrupted call, nothing to read, nothing to
      read and the child gone, a broken pipe, or a read of up to n bytes. */
  datatype Turn = Interrupted | Quiet | Gone | Broken | Read(n: nat)

  datatype Received = Line(text: string) | Nothing

  function Min(a: nat, b: nat): nat {
    if a <= b then a else b
  }

  /** How many bytes a turn takes off the pipe. */
  function Taken(turn: Turn, pipe: string): nat {
    if turn.Read? then Min(Min(turn.n, MAX_READ), |pipe|) else 0
  }

  // ----- the deadline

  type Nanos = n: int | 0 <= n < 1_000_000_000

  datatype Time = Time(sec: int, nsec: Nanos)

  predicate NotBefore(a: Time, b: Time) {
    a.sec > b.sec || (a.sec == b.sec && a.nsec >= b.nsec)
  }

  /** C division, which truncates toward zero. */
  function TruncDiv(a: int, b: nat): int
    requires b > 0
  {
    if a >= 0 then a / b else -(-a / b)
  }

  /** Milliseconds left until the deadline, as recv_line computes them. */
  function MillisLeft(deadline: Time, now: Time): int {
    (deadline.sec - now.sec) * 1000 + TruncDiv(deadline.nsec - now.nsec, 1_000_000)
  }

  function DeadlineOf(start: Time, timeoutMs: nat): Time {
    var nsec := start.nsec + timeoutMs % 1000 * 1_000_000;
    if nsec >= 1_000_000_000 then Time(start.sec + timeoutMs / 1000 + 1, nsec - 1_000_000_000)
    else Time(start.sec + timeoutMs / 1000, nsec)
  }

  /** Time as one number of nanoseconds. */
  function Clock(t: Time): int {
    t.sec * 1_000_000_000 + t.nsec
  }

  lemma ClockOrder(a: Time, b: Time)
    ensures NotBefore(a, b) <==> Clock(a) >= Clock(b)
  {
  }

  lemma DeadlineClock(start: Time, timeoutMs: nat)
    ensures Clock(DeadlineOf(start, timeoutMs)) == Clock(start) + timeoutMs * 1_000_000
  {
    assert timeoutMs == timeoutMs / 1000 * 1000 + timeoutMs % 1000;
  }

  /** Nothing is left from the deadline on, and something is left up to a millisecond before it. */
  lemma MillisLeftBounds(deadline: Time, now: Time)
    ensures Clock(now) >= Clock(deadline) ==> MillisLeft(deadline, now) <= 0
    ensures MillisLeft(deadline, now) <= 0 ==> Clock(now) > Clock(deadline) - 1_000_000
  {
    var s: int, n: int := deadline.sec - now.sec, deadline.nsec - now.nsec;
    var q := TruncDiv(n, 1_000_000);
    TruncBounds(n);
    assert Clock(deadline) - Clock(now) == s * 1_000_000_000 + n;
    assert MillisLeft(deadline, now) == s * 1000 + q;
  }

  lemma TruncBounds(n: int)
    ensures var q := TruncDiv(n, 1_000_000);
            if n >= 0 then q * 1_000_000 <= n < q * 1_000_000 + 1_000_000
            else q * 1_000_000 - 1_000_000 < n <= q * 1_000_000
  {
  }

  /** With a zero timeout the deadline has passed at its first check, on any monotone clock, so
      the loop never polls or reads. */
  lemma ZeroTimeoutExpires(start: Time, now: Time)
    requires Clock(now) >= Clock(start)
    ensures MillisLeft(DeadlineOf(start, 0), now) <= 0
  {
    hide MillisLeft, DeadlineOf;
    DeadlineClock(start, 0);
    MillisLeftBounds(DeadlineOf(start, 0), now);
  }

  /** One turn of recv_line with its clock readings: before the poll, and after one that saw
      nothing. */
  datatype Tick = Tick(now: Time, turn: Turn, after: Time)

  /** A receive call as the outside sees it: the clock at entry, then turn by turn.  Ticks that
      end early end in a failed clock reading. */
  datatype Wait = Wait(start: Time, ticks: seq<Tick>) {
    /** Nanoseconds since the call. */
    function Since(t: Time): int {
      Clock(t) - Clock(start)
    }

    /** The clock is monotone: no reading is before the one at entry. */
    ghost predicate Monotone() {
      forall i :: 0 <= i < |ticks| ==> Since(ticks[i].now) >= 0
    }
  }

  /** The time is up: less than a millisecond of it was left before the poll, or none after one that
      saw nothing. */
  predicate TimeUp(timeoutMs: int, w: Wait, tick: Tick) {
    && timeoutMs >= 0
    && (|| w.Since(tick.now) > (timeoutMs - 1) * 1_000_000
        || ((tick.turn.Quiet? || tick.turn.Gone?) && w.Since(tick.after) >= timeoutMs * 1_000_000))
  }

  /** What the check before a poll, and the one after a poll that saw nothing, mean in nanoseconds. */
  lemma ChecksMeanTime(timeoutMs: nat, w: Wait, tick: Tick)
    ensures MillisLeft(DeadlineOf(w.start, timeoutMs), tick.now) <= 0 ==> TimeUp(timeoutMs, w, tick)
    ensures MillisLeft(DeadlineOf(w.start, timeoutMs), tick.now) > 0 ==> w.Since(tick.now) < timeoutMs * 1_000_000
    ensures (tick.turn.Quiet? || tick.turn.Gone?) && NotBefore(tick.after, DeadlineOf(w.start, timeoutMs)) ==>
              TimeUp(timeoutMs, w, tick)
  {
    hide MillisLeft, DeadlineOf, Clock, NotBefore;
    DeadlineClock(w.start, timeoutMs);
    MillisLeftBounds(DeadlineOf(w.start, timeoutMs), tick.now);
    ClockOrder(tick.after, DeadlineOf(w.start, timeoutMs));
  }

  /** Whether a first turn reads the rest of a line in time. */
  predicate ReadsLine(timeoutMs: int, w: Wait, rx: string, pipe: string) {
    && w.ticks != [] && w.ticks[0].turn.Read?
    && (timeoutMs < 0 || w.Since(w.ticks[0].now) <= (timeoutMs - 1) * 1_000_000)
    && !OneLine(rx + pipe[..Taken(w.ticks[0].turn, pipe)])
  }

  // ----- what a discard leaves

  /** What at most n reads leave of a pipe, and whether one of them found it broken. */
  function DiscardLeaves(pipe: string, turns: seq<Turn>, n: nat): (string, bool) {
    if n == 0 || turns == [] || turns[0].Quiet? || turns[0].Gone? then (pipe, false)
    else if turns[0].Broken? then (pipe, true)
    else DiscardLeaves(pipe[Taken(turns[0], pipe)..], turns[1..], n - 1)
  }

  lemma DiscardStep(pipe: string, turns: seq<Turn>, k: nat, n: nat)
    requires k < |turns| && n > 0
    ensures DiscardLeaves(pipe, turns[k..], n) ==
            if turns[k].Quiet? || turns[k].Gone? then (pipe, false)
            else if turns[k].Broken? then (pipe, true)
            else DiscardLeaves(pipe[Taken(turns[k], pipe)..], turns[k + 1..], n - 1)
  {
    assert turns[k..][1..] == turns[k + 1..];
  }

  lemma DiscardEnds(pipe: string, turns: seq<Turn>, n: nat)
    ensures n == 0 || turns == [] ==> DiscardLeaves(pipe, turns, n) == (pipe, false)
  {
  }

  /** It is the end of the pipe. */
  lemma {:induction false} DiscardsPrefix(pipe: string, turns: seq<Turn>, n: nat)
    ensures var left := DiscardLeaves(pipe, turns, n).0;
            |left| <= |pipe| <= |left| + n * MAX_READ && left == pipe[|pipe| - |left|..]
  {
    if !(n == 0 || turns == [] || turns[0].Quiet? || turns[0].Gone? || turns[0].Broken?) {
      DiscardsPrefix(pipe[Taken(turns[0], pipe)..], turns[1..], n - 1);
    }
  }

  /** A discard can stop at any byte within reach of one read. */
  lemma AnyCut(pipe: string, d: nat)
    requires d <= |pipe| && d <= MAX_READ
    ensures DiscardLeaves(pipe, [Read(d), Quiet], DISCARD_READS) == (pipe[d..], false)
  {
    assert [Read(d), Quiet][1..] == [Quiet];
  }

  lemma LineNeedsTurn(timeoutMs: int, w: Wait, rx: string, pipe: string)
    ensures ReadsLine(timeoutMs, w, rx, pipe) ==>
              && w.ticks != [] && w.ticks[0].turn.Read? && !OneLine(rx + pipe[..Taken(w.ticks[0].turn, pipe)])
              && (timeoutMs >= 0 ==> !TimeUp(timeoutMs, w, w.ticks[0]))
  {
  }

  /** Moving the first line from the buffer to the lines delivered changes no byte. */
  lemma DeliverLine(ls: seq<string>, text: string, rx: string)
    ensures Framed(ls + [text]) + rx == Framed(ls) + (text + "\n" + rx)
  {
    FramedConcat(ls, [text]);
    FramedOne(text);
    Regroup(Framed(ls), text, rx);
  }

  lemma Regroup(a: string, t: string, x: string)
    ensures a + (t + "\n") + x == a + (t + "\n" + x)
  {
  }

  lemma MoveBytes(a: string, rx: string, pipe: string, n: nat)
    requires n <= |pipe|
    ensures a + rx + pipe[..n] == a + (rx + pipe[..n])
    ensures rx + pipe[..n] + pipe[n..] == rx + pipe && a + pipe[..n] + pipe[n..] == a + pipe
  {
    assert pipe == pipe[..n] + pipe[n..];
  }

  class Channel {
    var rx: string
    var pipe: string
    var dead: bool
    var outgoing: string
    ghost var taken: string
    ghost var lines: seq<string>

    /** Since the last discard: the lines delivered, framed, then the buffer, are the bytes read. */
    ghost predicate Valid()
      reads this
    {
      Lines(lines) && taken == Framed(lines) + rx
    }

    constructor ()
      ensures Valid() && !dead && rx == "" && pipe == "" && outgoing == "" && taken == "" && lines == []
    {
      rx, pipe, dead, outgoing, taken, lines := "", "", false, "", "", [];
    }

    /** rpc_send: on success the message and its newline have gone out, whole and in order,
        however the writes were cut; on failure a part of them and the channel is dead.  A list
        of writes that ends early ends in a failed one. */
    method Send(text: string, writes: seq<Write>) returns (ok: bool)
      modifies `dead, `outgoing
      ensures old(dead) ==> !ok && outgoing == old(outgoing)
      ensures ok ==> outgoing == old(outgoing) + text + "\n"
      ensures dead == !ok
      ensures old(outgoing) <= outgoing <= old(outgoing) + text + "\n"
    {
      if dead {
        return false;
      }
      var off, k := 0, 0;
      while off < |text|
        invariant 0 <= off <= |text| && k <= |writes| && !dead
        invariant outgoing == old(outgoing) + text[..off]
        decreases |writes| - k
      {
        if k < |writes| && writes[k].WriteInterrupted? {
          k := k + 1;
          continue;
        }
        if k == |writes| || writes[k].WriteFailed? || writes[k].n == 0 {
          dead := true;
          return false;
        }
        var n := Min(writes[k].n, |text| - off);
        k := k + 1;
        outgoing := outgoing + text[off..off + n];
        assert text[..off + n] == text[..off] + text[off..off + n];
        off := off + n;
      }
      assert text[..off] == text;
      if k == |writes| || writes[k] != Wrote(1) {
        dead := true;
        return false;
      }
      outgoing := outgoing + "\n";
      return true;
    }

    /** The line in front of the buffer, if it is complete. */
    method TakeLine() returns (r: Received)
      requires Valid()
      modifies `rx, `lines
      ensures Valid()
      ensures OneLine(old(rx)) ==> r.Nothing? && rx == old(rx) && lines == old(lines)
      ensures !OneLine(old(rx)) ==>
                r.Line? && OneLine(r.text) && old(rx) == r.text + "\n" + rx && lines == old(lines) + [r.text]
    {
      hide Framed;
      var nl := NewlineAt(rx);
      if nl == |rx| {
        return Nothing;
      }
      ghost var before := rx;
      r := Line(rx[..nl]);
      rx := rx[nl + 1..];
      assert before == r.text + "\n" + rx;
      DeliverLine(lines, r.text, rx);
      lines := lines + [r.text];
    }

    /** recv_line.  A negative timeout is none.  It gives up on a live channel only when its time is
        up or the clock fails, and reads only before its time is over; a line that the first turn
        completes in time is delivered. */
    method RecvLine(timeoutMs: int, w: Wait) returns (r: Received, ghost used: nat)
      requires Valid() && w.Monotone()
      modifies `rx, `pipe, `dead, `taken, `lines
      ensures Valid() && taken + pipe == old(taken) + old(pipe)
      ensures lines == if r.Line? then old(lines) + [r.text] else old(lines)
      ensures old(rx) + old(pipe) == (if r.Line? then r.text + "\n" else "") + rx + pipe
      ensures r.Line? ==> dead == old(dead) && OneLine(r.text)
      ensures r.Nothing? ==> OneLine(rx)
      ensures old(dead) ==> dead
      ensures used <= |w.ticks| && (r.Nothing? && !dead && used < |w.ticks| ==> TimeUp(timeoutMs, w, w.ticks[used]))
      ensures timeoutMs >= 0 ==> forall i :: 0 <= i < used ==> w.Since(w.ticks[i].now) < timeoutMs * 1_000_000
      ensures ReadsLine(timeoutMs, w, old(rx), old(pipe)) ==> r.Line?
      ensures timeoutMs == 0 ==> pipe == old(pipe) && dead == old(dead) && (r.Line? ==> |rx| < |old(rx)|)
      ensures timeoutMs == 0 ==> (r.Line? <==> !OneLine(old(rx)))
    {
      hide Framed, MillisLeft, DeadlineOf, Clock, NotBefore, OneLine, ReadsLine, TimeUp;
      var deadline := if timeoutMs >= 0 then DeadlineOf(w.start, timeoutMs) else w.start;
      LineNeedsTurn(timeoutMs, w, rx, pipe);
      var k := 0;
      used := 0;
      while true
        invariant Valid() && used == k <= |w.ticks| && taken + pipe == old(taken) + old(pipe)
        invariant lines == old(lines) && dead == old(dead) && rx + pipe == old(rx) + old(pipe)
        invariant timeoutMs == 0 ==> k == 0
        invariant k == 0 ==> rx == old(rx) && pipe == old(pipe)
        invariant timeoutMs >= 0 ==> forall i :: 0 <= i < k ==> w.Since(w.ticks[i].now) < timeoutMs * 1_000_000
        invariant ReadsLine(timeoutMs, w, old(rx), old(pipe)) ==> k <= 1 && (k == 1 ==> !OneLine(rx))
        decreases |w.ticks| - k
      {
        r := TakeLine();
        if r.Line? || k == |w.ticks| {
          return;
        }
        var tick := w.ticks[k];
        assert w.Since(tick.now) >= 0;
        if timeoutMs >= 0 {
          ChecksMeanTime(timeoutMs, w, tick);
        }
        if timeoutMs >= 0 && MillisLeft(deadline, tick.now) <= 0 {
          return;
        }
        if tick.turn.Quiet? || tick.turn.Gone? {
          if timeoutMs >= 0 && NotBefore(tick.after, deadline) {
            return;
          }
        }
        k := k + 1;
        used := k;
        if tick.turn.Gone? || tick.turn.Broken? {
          dead := true;
          return;
        }
        var n := Taken(tick.turn, pipe);
        MoveBytes(Framed(lines), rx, pipe, n);
        MoveBytes(taken, rx, pipe, n);
        rx, taken, pipe := rx + pipe[..n], taken + pipe[..n], pipe[n..];
      }
    }

    /** nsr_json_rpc_discard_queued: a new beginning at whatever byte comes next. */
    method DiscardQueued(turns: seq<Turn>)
      modifies `rx, `pipe, `dead, `taken, `lines
      ensures Valid() && rx == "" && lines == [] && taken == ""
      ensures old(dead) ==> dead && pipe == old(pipe)
      ensures !old(dead) ==> (pipe, dead) == DiscardLeaves(old(pipe), turns, DISCARD_READS)
      ensures |pipe| <= |old(pipe)| && pipe == old(pipe)[|old(pipe)| - |pipe|..]
      ensures |old(pipe)| - |pipe| <= DISCARD_READS * MAX_READ
    {
      hide DiscardLeaves;
      rx, taken, lines := "", "", [];
      if dead {
        return;
      }
      DiscardsPrefix(pipe, turns, DISCARD_READS);
      var count := 0;
      assert turns[0..] == turns;
      while count < DISCARD_READS && count < |turns|
        invariant 0 <= count <= DISCARD_READS && count <= |turns| && !dead
        invariant Valid() && rx == "" && lines == [] && taken == ""
        invariant DiscardLeaves(pipe, turns[count..], DISCARD_READS - count) ==
                  DiscardLeaves(old(pipe), turns, DISCARD_READS)
      {
        DiscardStep(pipe, turns, count, DISCARD_READS - count);
        var turn := turns[count];
        if turn.Quiet? || turn.Gone? {
          return;
        }
        count := count + 1;
        if turn.Broken? {
          dead := true;
          return;
        }
        pipe := pipe[Taken(turn, pipe)..];
      }
      DiscardEnds(pipe, turns[count..], DISCARD_READS - count);
    }
  }
}
