/**
 The two Internet-checksum routines: nsr_checksum (src/io/tracer.c) over a byte buffer and
 fast_icmp_checksum (src/io/gatekeeper.c) over the four words of an echo request, against
 the ones'-complement sum of section 1 of RFC 1071.
 */
module Checksum {
  import opened Bits

  type Word = w: int | 0 <= w < 65536

  const M: nat := 65535

  // ----- reference

  function Sum(ws: seq<Word>): nat {
    if ws == [] then 0 else Sum(ws[..|ws| - 1]) + ws[|ws| - 1]
  }

  /** Fold the carries back in until 16 bits are left. */
  function Fold(s: nat): (r: Word) {
    if s < 65536 then s else Fold(s % 65536 + s / 65536)
  }

  /** Section 1 of RFC 1071: the complement of the ones'-complement sum. */
  function Rfc1071(ws: seq<Word>): Word {
    65535 - Fold(Sum(ws))
  }

  // ----- nsr_checksum

  function AddCarry(acc: nat, w: Word): nat {
    if acc + w > 0xffff then acc + w - 0xffff else acc + w
  }

  function Accumulate(ws: seq<Word>): nat {
    if ws == [] then 0xffff else AddCarry(Accumulate(ws[..|ws| - 1]), ws[|ws| - 1])
  }

  /** The accumulator never leaves 1..65535 and keeps the sum modulo 65535. */
  lemma {:induction false} AccumulateIsResidue(ws: seq<Word>)
    ensures 1 <= Accumulate(ws) <= 65535
    ensures Accumulate(ws) % M == Sum(ws) % M
  {
    if ws != [] {
      var p, w := ws[..|ws| - 1], ws[|ws| - 1];
      AccumulateIsResidue(p);
      CarryKeepsResidue(Accumulate(p), Sum(p), w);
    }
  }

  lemma CarryKeepsResidue(acc: nat, s: nat, w: Word)
    requires acc % M == s % M
    ensures AddCarry(acc, w) % M == (s + w) % M
  {
    ModAddMod(acc, w, M);
    ModAddMod(s, w, M);
    MultiplesShareResidue(acc + w - M, acc + w, 1);
  }

  function Complement(ws: seq<Word>): (r: Word) {
    AccumulateIsResidue(ws);
    65535 - Accumulate(ws)
  }

  /** The word a machine loads from two bytes in memory. */
  function Load(first: Byte, second: Byte, little: bool): Word {
    if little then first + 256 * second else first * 256 + second
  }

  /** The words of a buffer; an odd last byte is followed by a zero byte. */
  function Words(data: seq<Byte>, little: bool): seq<Word> {
    if data == [] then []
    else if |data| % 2 == 1 then Words(data[..|data| - 1], little) + [Load(data[|data| - 1], 0, little)]
    else Words(data[..|data| - 2], little) + [Load(data[|data| - 2], data[|data| - 1], little)]
  }

  method NsrChecksum(data: seq<Byte>, little: bool) returns (r: Word)
    ensures r == Complement(Words(data, little))
  {
    WordsEnds(data, little);
    hide Accumulate, Words, Load, AddCarry;
    var acc: nat := 0xffff;
    var i := 0;
    while i + 1 < |data|
      invariant i <= |data| && i % 2 == 0
      invariant acc == Accumulate(Words(data[..i], little))
    {
      var word := Load(data[i], data[i + 1], little);
      WordsSnoc(data[..i], data[i], data[i + 1], little);
      assert data[..i + 2] == data[..i] + [data[i], data[i + 1]];
      CarryRule(acc, word);
      acc := acc + word;
      if acc > 0xffff {
        acc := acc - 0xffff;
      }
      i := i + 2;
    }
    AccumulateIsResidue(Words(data, little));
    if |data| % 2 == 1 {
      var word := Load(data[|data| - 1], 0, little);
      CarryRule(acc, word);
      acc := acc + word;
      if acc > 0xffff {
        acc := acc - 0xffff;
      }
    } else {
      assert data[..i] == data;
    }
    return 65535 - acc;
  }

  lemma CarryRule(acc: nat, w: Word)
    ensures AddCarry(acc, w) == if acc + w > 0xffff then acc + w - 0xffff else acc + w
  {
  }

  lemma WordsEnds(data: seq<Byte>, little: bool)
    ensures Accumulate(Words(data[..0], little)) == 0xffff
    ensures |data| % 2 == 1 ==>
              Accumulate(Words(data, little)) ==
              AddCarry(Accumulate(Words(data[..|data| - 1], little)), Load(data[|data| - 1], 0, little))
  {
    if |data| % 2 == 1 {
      AccumulateSnoc(Words(data[..|data| - 1], little), Load(data[|data| - 1], 0, little));
    }
  }

  lemma WordsSnoc(data: seq<Byte>, a: Byte, b: Byte, little: bool)
    requires |data| % 2 == 0
    ensures Words(data + [a, b], little) == Words(data, little) + [Load(a, b, little)]
    ensures Accumulate(Words(data + [a, b], little)) == AddCarry(Accumulate(Words(data, little)), Load(a, b, little))
  {
    assert (data + [a, b])[..|data|] == data;
    AccumulateSnoc(Words(data, little), Load(a, b, little));
  }

  lemma AccumulateSnoc(ws: seq<Word>, w: Word)
    ensures Accumulate(ws + [w]) == AddCarry(Accumulate(ws), w)
    ensures Sum(ws + [w]) == Sum(ws) + w
  {
    assert (ws + [w])[..|ws|] == ws;
  }

  // ----- against RFC 1071

  lemma {:induction false} FoldIsResidue(s: nat)
    ensures Fold(s) % M == s % M
    ensures Fold(s) == 0 <==> s == 0
  {
    if s >= 65536 {
      var q, r := s / 65536, s % 65536;
      FoldIsResidue(r + q);
      DivModUnique(s, (r + q) / M + q, (r + q) % M, M) by {
        assert s == 65536 * q + r;
        assert r + q == (r + q) / M * M + (r + q) % M;
      }
    }
  }

  lemma ResidueDetermines(a: int, b: int)
    requires 1 <= a <= 65535 && 1 <= b <= 65535 && a % M == b % M
    ensures a == b
  {
  }

  /** nsr_checksum is the RFC 1071 checksum, except that a buffer of zeros gives the other
      representation of zero: it agrees exactly when some word is not zero. */
  lemma AgreesWithRfc1071(ws: seq<Word>)
    ensures Complement(ws) == Rfc1071(ws) <==> Sum(ws) != 0
    ensures Sum(ws) == 0 ==> Complement(ws) == 0 && Rfc1071(ws) == 65535
    ensures Complement(ws) % M == Rfc1071(ws) % M
  {
    AccumulateIsResidue(ws);
    FoldIsResidue(Sum(ws));
    if Sum(ws) != 0 {
      ResidueDetermines(Accumulate(ws), Fold(Sum(ws)));
    } else {
      ResidueDetermines(Accumulate(ws), 65535);
    }
  }

  // ----- verification of a checksummed buffer

  lemma {:induction false} SumUpdate(ws: seq<Word>, i: nat, w: Word)
    requires i < |ws|
    ensures Sum(ws[i := w]) + ws[i] == Sum(ws) + w
  {
    var n := |ws| - 1;
    if i == n {
      assert ws[i := w][..n] == ws[..n];
    } else {
      assert ws[i := w][..n] == ws[..n][i := w];
      SumUpdate(ws[..n], i, w);
    }
  }

  /** Storing the checksum in a field that was zero makes a second run return 0. */
  lemma ChecksumVerifies(ws: seq<Word>, i: nat)
    requires i < |ws| && ws[i] == 0
    ensures Complement(ws[i := Complement(ws)]) == 0
  {
    var c := Complement(ws);
    var ws' := ws[i := c];
    SumUpdate(ws, i, c);
    AccumulateIsResidue(ws);
    AccumulateIsResidue(ws');
    var a := Accumulate(ws);
    SumCancels(a, Sum(ws));
    ResidueDetermines(Accumulate(ws'), 65535);
  }

  lemma SumCancels(a: nat, s: nat)
    requires 1 <= a <= 65535 && a % M == s % M
    ensures (s + (65535 - a)) % M == 0
  {
    ModSubMod(s, a, M);
    ModAddMod(s - a, M, M);
    assert (s % M - a % M) % M == 0;
    DivModUnique(s - a, (s - a) / M, 0, M);
    DivModUnique(s - a + M, (s - a) / M + 1, 0, M);
  }

  /** The two bytes that storing a word puts in memory. */
  function Store(w: Word, little: bool): (r: (Byte, Byte))
    ensures Load(r.0, r.1, little) == w
  {
    if little then (w % 256, w / 256) else (w / 256, w % 256)
  }

  function Cut(data: seq<Byte>): nat
    requires data != []
  {
    if |data| % 2 == 1 then |data| - 1 else |data| - 2
  }

  lemma WordsStep(data: seq<Byte>, little: bool)
    requires data != []
    ensures var n := Cut(data);
            Words(data, little) ==
            Words(data[..n], little) + [Load(data[n], if n + 1 < |data| then data[n + 1] else 0, little)]
  {
  }

  lemma {:induction false} WordsAt(data: seq<Byte>, i: nat, little: bool)
    requires 2 * i + 1 < |data|
    ensures i < |Words(data, little)|
    ensures Words(data, little)[i] == Load(data[2 * i], data[2 * i + 1], little)
  {
    hide Load, Words;
    var n := Cut(data);
    WordsStep(data, little);
    WordsLength(data[..n], little);
    if n != 2 * i {
      WordsAt(data[..n], i, little);
    }
  }

  lemma {:induction false} WordsUpdate(data: seq<Byte>, i: nat, a: Byte, b: Byte, little: bool)
    requires 2 * i + 1 < |data| && i < |Words(data, little)|
    ensures Words(data[2 * i := a][2 * i + 1 := b], little) == Words(data, little)[i := Load(a, b, little)]
  {
    hide Load, Words;
    var upd, n := data[2 * i := a][2 * i + 1 := b], Cut(data);
    WordsStep(data, little);
    WordsStep(upd, little);
    WordsLength(data[..n], little);
    if n == 2 * i {
      assert upd[..n] == data[..n];
    } else {
      assert upd[..n] == data[..n][2 * i := a][2 * i + 1 := b];
      WordsUpdate(data[..n], i, a, b, little);
    }
  }

  lemma {:induction false} WordsLength(data: seq<Byte>, little: bool)
    ensures |Words(data, little)| == (|data| + 1) / 2
  {
    if data != [] {
      WordsLength(data[..Cut(data)], little);
    }
  }

  /** The same on the bytes: store the checksum in an even-aligned field that was zero, on a
      machine of either byte order, and nsr_checksum of the buffer is 0. */
  lemma FieldVerifies(data: seq<Byte>, i: nat, little: bool)
    requires 2 * i + 1 < |data| && data[2 * i] == 0 && data[2 * i + 1] == 0
    ensures var field := Store(Complement(Words(data, little)), little);
            Complement(Words(data[2 * i := field.0][2 * i + 1 := field.1], little)) == 0
  {
    hide Complement;
    var field := Store(Complement(Words(data, little)), little);
    WordsAt(data, i, little);
    WordsUpdate(data, i, field.0, field.1, little);
    ChecksumVerifies(Words(data, little), i);
  }

  // ----- byte order

  function Swap(w: Word): Word {
    w % 256 * 256 + w / 256
  }

  function SwapAll(ws: seq<Word>): (r: seq<Word>)
    ensures |r| == |ws|
  {
    seq(|ws|, i requires 0 <= i < |ws| => Swap(ws[i]))
  }

  /** Swapping the bytes of a word multiplies it by 256 modulo 65535. */
  lemma SwapIsTimes256(w: Word)
    ensures Swap(w) == 256 * w - 65535 * (w / 256)
  {
  }

  lemma {:induction false} SumOfSwapped(ws: seq<Word>) returns (d: nat)
    ensures Sum(SwapAll(ws)) + M * d == 256 * Sum(ws)
  {
    if ws == [] {
      d := 0;
    } else {
      var p, w := ws[..|ws| - 1], ws[|ws| - 1];
      d := SumOfSwapped(p);
      assert SwapAll(ws) == SwapAll(p) + [Swap(w)];
      AccumulateSnoc(SwapAll(p), Swap(w));
      SwapIsTimes256(w);
      d := d + w / 256;
    }
  }

  lemma MultiplesShareResidue(x: int, y: int, d: int)
    requires x + M * d == y
    ensures x % M == y % M
  {
    DivModUnique(y, x / M + d, x % M, M) by {
      assert x == x / M * M + x % M;
    }
  }

  lemma ScaledResidue(a: int, b: int)
    requires a % M == b % M
    ensures (256 * a) % M == (256 * b) % M
  {
    var d := b / M - a / M;
    assert b == a + M * d by {
      assert a == a / M * M + a % M && b == b / M * M + b % M;
    }
    MultiplesShareResidue(256 * a, 256 * b, 256 * d);
  }

  /** Section 2(B) of RFC 1071: byte-swapped words give the byte-swapped checksum. */
  lemma ByteOrderIndependent(ws: seq<Word>)
    ensures Complement(SwapAll(ws)) == Swap(Complement(ws))
  {
    AccumulateIsResidue(ws);
    AccumulateIsResidue(SwapAll(ws));
    var a: Word, b := Accumulate(ws), Accumulate(SwapAll(ws));
    var d := SumOfSwapped(ws);
    MultiplesShareResidue(Sum(SwapAll(ws)), 256 * Sum(ws), d);
    ScaledResidue(a, Sum(ws));
    SwapIsTimes256(a);
    MultiplesShareResidue(Swap(a), 256 * a, a / 256);
    ResidueDetermines(b, Swap(a));
    SwapOfComplement(a);
  }

  lemma SwapOfComplement(a: Word)
    ensures Swap(65535 - a) == 65535 - Swap(a)
  {
    var hi, lo := a / 256, a % 256;
    DivModUnique(65535 - a, 255 - hi, 255 - lo, 256);
  }

  lemma StoreSwapped(w: Word)
    ensures Store(Swap(w), true) == Store(w, false)
  {
  }

  /** The same buffer on machines of either byte order: the checksums are byte swaps of each
      other, so storing them in memory stores the same two bytes. */
  lemma SameBytesOnEveryMachine(data: seq<Byte>)
    ensures Complement(Words(data, true)) == Swap(Complement(Words(data, false)))
    ensures Store(Complement(Words(data, true)), true) == Store(Complement(Words(data, false)), false)
  {
    WordsSwap(data);
    ByteOrderIndependent(Words(data, false));
    StoreSwapped(Complement(Words(data, false)));
  }

  lemma {:induction false} WordsSwap(data: seq<Byte>)
    ensures Words(data, true) == SwapAll(Words(data, false))
  {
    if data != [] {
      var n := if |data| % 2 == 1 then |data| - 1 else |data| - 2;
      WordsSwap(data[..n]);
      LoadSwap(data[n], if |data| % 2 == 1 then 0 else data[n + 1]);
    }
  }

  lemma LoadSwap(first: Byte, second: Byte)
    ensures Load(first, second, true) == Swap(Load(first, second, false))
  {
    DivModUnique(first * 256 + second, first, second, 256);
  }

  // ----- fast_icmp_checksum

  /** The unsigned 32-bit steps of the original: two folds, then the low 16 bits complemented. */
  function FastIcmp(id: Word, seqNo: Word): Word {
    var sum := 0x0800 + id + seqNo;
    var folded := sum / 65536 + sum % 65536;
    var twice := folded + folded / 65536;
    65535 - twice % 65536
  }

  /** For every id and sequence number it is nsr_checksum of the words 0x0800, 0, id, seq. */
  lemma FastIsNsrChecksum(id: Word, seqNo: Word)
    ensures FastIcmp(id, seqNo) == Complement([0x0800, 0, id, seqNo])
    ensures FastIcmp(id, seqNo) == Rfc1071([0x0800, 0, id, seqNo])
  {
    hide Accumulate, Sum, Fold, Rfc1071;
    FourWords(id, seqNo);
    AgreesWithRfc1071([0x0800, 0, id, seqNo]);
  }

  lemma FourWords(id: Word, seqNo: Word)
    ensures Accumulate([0x0800, 0, id, seqNo]) == AddCarry(AddCarry(0x0800, id), seqNo)
    ensures Sum([0x0800, 0, id, seqNo]) > 0
  {
    hide AddCarry;
    AccumulateSnoc([], 0x0800);
    assert [] + [0x0800 as Word] == [0x0800];
    AccumulateSnoc([0x0800], 0);
    assert [0x0800 as Word] + [0] == [0x0800, 0];
    AccumulateSnoc([0x0800, 0], id);
    assert [0x0800 as Word, 0] + [id] == [0x0800, 0, id];
    AccumulateSnoc([0x0800, 0, id], seqNo);
    assert [0x0800 as Word, 0, id] + [seqNo] == [0x0800, 0, id, seqNo];
    FirstWord();
  }

  lemma FirstWord()
    ensures AddCarry(AddCarry(0xffff, 0x0800), 0) == 0x0800
  {
  }

  /** An odd last byte counts as if a zero byte followed it. */
  lemma OddIsPadded(data: seq<Byte>, little: bool)
    requires |data| % 2 == 1
    ensures Complement(Words(data, little)) == Complement(Words(data + [0], little))
  {
    assert (data + [0])[..|data + [0]| - 2] == data[..|data| - 1];
  }

  /** Two bytes make a word, the first one high on a big-endian machine and low on a little-endian one. */
  lemma WordOfBytes(a: Byte, b: Byte)
    ensures Words([a, b], false) == [256 * a + b] && Words([a, b], true) == [a + 256 * b]
  {
    assert [a, b][..0] == [];
  }
}
