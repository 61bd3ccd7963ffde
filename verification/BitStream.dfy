/**
  The bit stream under the XOR chunks, byte by byte.

  `BitWriter` and `BitReader` are the write mode and the read mode of one class in the
  source. The writer pushes bytes and ors bits into the last one; the reader walks a byte
  index and a count of unread bits. Both are specified by the bit string they stand for.
*/
module BitStreams {
  import opened Words
  import opened XorCodec

  // Byte facts ///////////////////////////////////////////////////////////////////

  // A byte whose first bits are p, padded with zeros.
  predicate Starts(b: byte, p: seq<bool>)
  {
    |p| <= 8 && Bits(b, 8) == p + Zeros(8 - |p|)
  }

  lemma StartsDivides(b: byte, p: seq<bool>)
    requires Starts(b, p)
    ensures b % Pow2(8 - |p|) == 0
  {
    hide Bits, Pow2, Zeros;
    BitsLow(b, 8, 8 - |p|);
    BitsLowZero(b, 8 - |p|);
  }

  // Setting one bit after the prefix.
  lemma OrBit(b: byte, p: seq<bool>, bit: bool)
    requires Starts(b, p) && |p| < 8
    ensures var r := if bit then Or(b, Pow2(7 - |p|)) else b;
            r < 256 && Starts(r, p + [bit])
  {
    hide Bits;
    var k := 7 - |p|;
    if bit {
      StartsDivides(b, p);
      OrByte(b, Pow2(k), 8 - |p|);
      BitsShl(1, 1, k);
      assert Bits(1, 1) == [true] by { SingleBit(); }
      assert p + Bits(Pow2(k), 8 - |p|) == p + [true] + Zeros(k);
    } else {
      assert Zeros(8 - |p|) == [false] + Zeros(k);
      assert p + Zeros(8 - |p|) == p + [false] + Zeros(k);
    }
  }

  lemma SingleBit()
    ensures Bits(1, 1) == [true]
  {
  }

  lemma OrByte(b: byte, x: nat, k: nat)
    requires k <= 8 && b % Pow2(k) == 0 && x < Pow2(k)
    ensures Or(b, x) < 256
    ensures Bits(Or(b, x), 8) == Bits(b, 8)[..8 - k] + Bits(x, k)
  {
    Pow2Byte();
    Pow2Monotone(k, 8);
    OrBound(b, x, 8);
    OrDisjoint(b, x, 8, k);
  }

  // Writing a byte across the boundary: its first bits go into the last byte, the rest into a new one.
  lemma OrAcross(b: byte, p: seq<bool>, x: byte)
    requires Starts(b, p)
    ensures Or(b, Shr(x, |p|)) < 256
    ensures Bits(Or(b, Shr(x, |p|)), 8) == p + Bits(x, 8)[..8 - |p|]
  {
    hide Bits;
    var t := |p|;
    StartsDivides(b, p);
    Pow2Byte();
    ShrBound(x, 8 - t, t);
    OrByte(b, Shr(x, t), 8 - t);
    BitsHigh(x, 8, t);
  }

  lemma SpillByte(x: byte, t: nat)
    requires 0 < t <= 8
    ensures Starts(x * Pow2(8 - t) % 256, Bits(x, 8)[8 - t..])
  {
    hide Bits;
    Pow2Byte();
    BitsTruncate(x * Pow2(8 - t), 8, 8);
    BitsShl(x, t, 8 - t);
    BitsLow(x, 8, t);
  }

  // Shifting a word left by k drops its first k bits.
  lemma ShiftOut(w: uint64, k: nat)
    requires k <= 64
    ensures Bits(w * Pow2(k) % U64, 64) == Bits(w, 64)[k..] + Zeros(k)
  {
    hide Bits, Pow2;
    Pow2Word();
    BitsTruncate(w * Pow2(k), 64, 64);
    BitsShl(w, 64 - k, k);
    BitsLow(w, 64, 64 - k);
  }

  lemma TopByte(w: uint64)
    ensures Shr(w, 56) < 256
    ensures Bits(Shr(w, 56), 8) == Bits(w, 64)[..8]
  {
    hide Bits;
    Pow2Word();
    Pow2Byte();
    ShrBound(w, 8, 56);
    BitsHigh(w, 64, 56);
  }

  lemma TopBit(w: uint64)
    ensures (Shr(w, 63) == 1) == Bits(w, 64)[0]
  {
    hide Shr, Pow2;
    BitsHigh(w, 64, 63);
    assert Shr(w, 63) < 2 by { Pow2Word(); ShrBound(w, 1, 63); Pow2Byte(); }
    assert Bits(Shr(w, 63), 1) == [Shr(w, 63) % 2 == 1];
    assert Bits(w, 64)[..1][0] == Bits(w, 64)[0];
  }

  // The writer ///////////////////////////////////////////////////////////////////

  // `tail` bits of the last byte are in use; 0 means all of them.
  predicate Packed(stream: seq<byte>, tail: nat)
  {
    && tail < 8
    && (tail > 0 ==> stream != [] && Starts(stream[|stream| - 1], Bits(stream[|stream| - 1], 8)[..tail]))
  }

  function Unpack(stream: seq<byte>, tail: nat): (b: seq<bool>)
    requires Packed(stream, tail)
  {
    ByteBits(stream)[..8 * |stream| - (if tail == 0 then 0 else 8 - tail)]
  }

  lemma UnpackLast(stream: seq<byte>, last: byte, p: seq<bool>)
    requires 0 < |p| <= 8 && Starts(last, p)
    ensures Packed(stream + [last], |p| % 8)
    ensures Unpack(stream + [last], |p| % 8) == ByteBits(stream) + p
  {
    hide Bits, ByteBits, Zeros;
    var s := stream + [last];
    ByteBitsConcat(stream, [last]);
    ByteBitsSingle(last);
    assert s[|s| - 1] == last;
    assert Bits(last, 8)[..|p|] == p;
  }

  lemma UnpackFull(stream: seq<byte>)
    ensures Packed(stream, 0) && Unpack(stream, 0) == ByteBits(stream)
  {
  }

  // The last byte in use, split off.
  lemma UnpackTail(stream: seq<byte>, tail: nat) returns (p: seq<bool>)
    requires Packed(stream, tail) && tail > 0
    ensures |p| == tail && Starts(stream[|stream| - 1], p)
    ensures Unpack(stream, tail) == ByteBits(stream[..|stream| - 1]) + p
  {
    var last := stream[|stream| - 1];
    p := Bits(last, 8)[..tail];
    UnpackLast(stream[..|stream| - 1], last, p);
    assert stream[..|stream| - 1] + [last] == stream;
  }

  // Whole bytes in front can be taken off.
  lemma UnpackSplit(stream: seq<byte>, tail: nat, k: nat)
    requires Packed(stream, tail) && k <= |stream| && (tail > 0 ==> k < |stream|)
    ensures Packed(stream[k..], tail)
    ensures Unpack(stream, tail) == ByteBits(stream[..k]) + Unpack(stream[k..], tail)
  {
    hide Bits;
    assert stream == stream[..k] + stream[k..];
    ByteBitsConcat(stream[..k], stream[k..]);
    assert tail > 0 ==> stream[k..][|stream[k..]| - 1] == stream[|stream| - 1];
  }

  // One more bit, one more byte: the new bytes.
  function PushBit(stream: seq<byte>, tail: nat, bit: bool): (s: seq<byte>)
    requires Packed(stream, tail)
  {
    var open := if tail == 0 then stream + [0] else stream;
    var last := open[|open| - 1];
    if bit then PushBitFits(open, tail); open[|open| - 1 := Or(last, Pow2(7 - tail))] else open
  }

  lemma PushBitFits(open: seq<byte>, tail: nat)
    requires open != [] && tail < 8
    requires tail == 0 ==> open[|open| - 1] == 0
    requires tail > 0 ==> Packed(open, tail)
    ensures Starts(open[|open| - 1], Bits(open[|open| - 1], 8)[..tail])
    ensures Or(open[|open| - 1], Pow2(7 - tail)) < 256
  {
    hide Or;
    var last := open[|open| - 1];
    if tail == 0 {
      BitsOfZero(8);
      assert Bits(last, 8)[..0] == [];
    }
    OrBit(last, Bits(last, 8)[..tail], true);
  }

  lemma PushBitUnpack(stream: seq<byte>, tail: nat, bit: bool)
    requires Packed(stream, tail)
    ensures var s := PushBit(stream, tail, bit);
            && Packed(s, (tail + 1) % 8)
            && Unpack(s, (tail + 1) % 8) == Unpack(stream, tail) + [bit]
            && |s| == |stream| + (if tail == 0 then 1 else 0)
            && s[..|s| - 1] == (if tail == 0 then stream else stream[..|stream| - 1])
  {
    hide Bits, Or, ByteBits, Pow2, Zeros, Starts;
    var open := if tail == 0 then stream + [0] else stream;
    var front, last := open[..|open| - 1], open[|open| - 1];
    PushBitFits(open, tail);
    var p := Bits(last, 8)[..tail];
    OrBit(last, p, bit);
    var s := PushBit(stream, tail, bit);
    assert s == front + [s[|s| - 1]];
    UnpackLast(front, s[|s| - 1], p + [bit]);
    if tail == 0 {
      UnpackFull(stream);
      assert front == stream;
    } else {
      UnpackLast(front, last, p);
      assert front + [last] == stream;
    }
    assert ByteBits(front) + (p + [bit]) == ByteBits(front) + p + [bit];
  }

  function PushByte(stream: seq<byte>, tail: nat, x: byte): (s: seq<byte>)
    requires Packed(stream, tail)
  {
    if tail == 0 then stream + [x]
    else
      var last := stream[|stream| - 1];
      OrAcross(last, Bits(last, 8)[..tail], x);
      stream[|stream| - 1 := Or(last, Shr(x, tail))] + [x * Pow2(8 - tail) % 256]
  }

  lemma PushByteUnpack(stream: seq<byte>, tail: nat, x: byte)
    requires Packed(stream, tail)
    ensures var s := PushByte(stream, tail, x);
            && Packed(s, tail)
            && Unpack(s, tail) == Unpack(stream, tail) + Bits(x, 8)
            && |s| == |stream| + 1
            && s[..|stream| - (if tail == 0 then 0 else 1)] == stream[..|stream| - (if tail == 0 then 0 else 1)]
  {
    hide Bits, Or, Pow2, Shr, ByteBits;
    if tail == 0 {
      UnpackFull(stream);
      UnpackFull(stream + [x]);
      ByteBitsConcat(stream, [x]);
      ByteBitsSingle(x);
    } else {
      var p := UnpackTail(stream, tail);
      var front, last := stream[..|stream| - 1], stream[|stream| - 1];
      assert Bits(last, 8)[..tail] == p;
      OrAcross(last, p, x);
      SpillByte(x, tail);
      var merged: byte, spilled: byte, b := Or(last, Shr(x, tail)), x * Pow2(8 - tail) % 256, Bits(x, 8);
      assert PushByte(stream, tail, x) == (front + [merged]) + [spilled];
      UnpackLast(front + [merged], spilled, b[8 - tail..]);
      ByteBitsConcat(front, [merged]);
      ByteBitsSingle(merged);
      assert b[..8 - tail] + b[8 - tail..] == b;
      assert ByteBits(front + [merged]) + b[8 - tail..] == ByteBits(front) + p + b;
    }
  }

  // The bits of a shifted word that are still to be written.
  function Pending(word: uint64, left: nat): (b: seq<bool>)
    requires left <= 64
  {
    Bits(word, 64)[..left]
  }

  lemma PendingStart(bits: uint64, num: nat)
    requires 1 <= num <= 64
    ensures Pending(bits * Pow2(64 - num) % U64, num) == Bits(bits, num)
  {
    hide Bits;
    ShiftOut(bits, 64 - num);
    BitsLow(bits, 64, num);
  }

  lemma PendingByte(word: uint64, left: nat)
    requires 8 <= left <= 64
    ensures Shr(word, 56) < 256
    ensures Pending(word, left) == Bits(Shr(word, 56), 8) + Pending(word * Pow2(8) % U64, left - 8)
  {
    hide Bits;
    TopByte(word);
    ShiftOut(word, 8);
    var now := Bits(word, 64);
    assert now[..left] == now[..8] + now[8..left];
    assert (now[8..] + Zeros(8))[..left - 8] == now[8..left];
  }

  lemma PendingBit(word: uint64, left: nat)
    requires 1 <= left <= 64
    ensures Pending(word, left) == [Shr(word, 63) == 1] + Pending(word * Pow2(1) % U64, left - 1)
  {
    hide Bits;
    TopBit(word);
    ShiftOut(word, 1);
    var now := Bits(word, 64);
    assert now[..left] == [now[0]] + now[1..left];
    assert (now[1..] + Zeros(1))[..left - 1] == now[1..left];
  }

  class BitWriter {
    var stream: seq<byte>
    var tailCount: nat
    var end: nat
    const headerSize: nat

    ghost predicate Valid()
      reads this
    {
      Packed(stream, tailCount)
    }

    // Everything written so far.
    ghost function Written(): seq<bool>
      requires Valid()
      reads this
    {
      Unpack(stream, tailCount)
    }

    // The bytes that no further write can change.
    ghost function Settled(): (k: nat)
      requires Valid()
      reads this
      ensures k <= |stream|
    {
      if tailCount == 0 then |stream| else |stream| - 1
    }

    // Bytes were only added, and the settled ones kept.
    twostate predicate Extended()
      requires old(Valid()) && Valid()
      reads this
    {
      && end - |stream| == old(end - |stream|)
      && |stream| >= old(|stream|)
      && Settled() >= old(Settled())
      && forall i :: 0 <= i < old(Settled()) ==> stream[i] == old(stream[i])
    }

    constructor (size: nat, headerSize: nat)
      ensures Valid() && this.headerSize == headerSize
      ensures stream == seq(size + headerSize, _ => 0) && tailCount == 0 && end == size + headerSize
    {
      stream := seq(size + headerSize, _ => 0);
      tailCount := 0;
      end := size + headerSize;
      this.headerSize := headerSize;
    }

    method WriteBit(bit: bool)
      requires Valid()
      modifies this
      ensures Valid()
      ensures Written() == old(Written()) + [bit]
      ensures Extended()
    {
      hide Unpack, Or, Pow2, Starts;
      PushBitUnpack(stream, tailCount, bit);
      ghost var goal := PushBit(stream, tailCount, bit);
      ghost var keep := stream[..Settled()];
      if tailCount == 0 {
        stream := stream + [0];
        end := end + 1;
      }
      PushBitFits(stream, tailCount);
      tailCount := tailCount + 1;
      if bit {
        stream := stream[|stream| - 1 := Or(stream[|stream| - 1], Pow2(8 - tailCount))];
      }
      tailCount := tailCount % 8;
      assert stream == goal;
      assert forall i :: 0 <= i < |keep| ==> stream[..|stream| - 1][i] == keep[i];
    }

    method WriteByte(x: byte)
      requires Valid()
      modifies this
      ensures Valid() && tailCount == old(tailCount)
      ensures Written() == old(Written()) + Bits(x, 8)
      ensures Extended()
    {
      hide Unpack, Bits;
      PushByteUnpack(stream, tailCount, x);
      ghost var goal := PushByte(stream, tailCount, x);
      if tailCount == 0 {
        stream := stream + [0];
        end := end + 1;
      }
      OrShifted(stream[|stream| - 1], x, tailCount);
      stream := stream[|stream| - 1 := Or(stream[|stream| - 1], Shr(x, tailCount))];
      if tailCount != 0 {
        stream := stream + [x * Pow2(8 - tailCount) % 256];
        end := end + 1;
      }
      assert stream == goal;
    }

    method WriteBits(bits: uint64, num: nat)
      requires Valid() && 1 <= num <= 64
      modifies this
      ensures Valid()
      ensures Written() == old(Written()) + Bits(bits, num)
      ensures Extended()
    {
      hide Packed, Unpack, Bits, Pending, Pow2, Shr;
      var left := num;
      var word: uint64 := bits * Pow2(64 - num) % U64;
      PendingStart(bits, num);
      ghost var goal := Written() + Bits(bits, num);
      while left >= 8
        invariant Valid() && left <= num
        invariant Written() + Pending(word, left) == goal
        invariant Extended()
      {
        PendingByte(word, left);
        WriteByte(Shr(word, 56));
        left := left - 8;
        word := word * Pow2(8) % U64;
      }
      while left > 0
        invariant Valid() && left <= num
        invariant Written() + Pending(word, left) == goal
        invariant Extended()
      {
        PendingBit(word, left);
        WriteBit(Shr(word, 63) == 1);
        left := left - 1;
        word := word * Pow2(1) % U64;
      }
      assert Pending(word, 0) == [] by { PendingNothing(word); }
    }
  }

  lemma PendingNothing(word: uint64)
    ensures Pending(word, 0) == []
  {
  }

  // What the source computes in place of the last byte is a byte.
  lemma OrShifted(last: byte, x: byte, tail: nat)
    requires tail < 8
    ensures Or(last, Shr(x, tail)) < 256
    ensures last == 0 && tail == 0 ==> Or(last, Shr(x, tail)) == x
  {
    OrBoundShifted(last, x, tail);
    if last == 0 && tail == 0 {
      OrZero(x);
    }
  }

  lemma OrBoundShifted(last: byte, x: byte, tail: nat)
    requires tail < 8
    ensures Or(last, Shr(x, tail)) < 256
  {
    Pow2Byte();
    Pow2Monotone(8, 8 + tail);
    ShrBound(x, 8, tail);
    OrBound(last, Shr(x, tail), 8);
  }

  // The reader ///////////////////////////////////////////////////////////////////

  lemma LeadingBit(x: nat)
    ensures Bits(x, 8)[0] == (Shr(x, 7) % 2 == 1)
  {
    hide Shr;
    BitsHigh(x, 8, 7);
    assert Bits(Shr(x, 7), 1) == [Shr(x, 7) % 2 == 1];
    assert Bits(x, 8)[..1][0] == Bits(x, 8)[0];
  }

  // Bit i of a byte, moved to the top by a left shift.
  lemma BitAt(b: byte, i: nat)
    requires i < 8
    ensures (Shr(b * Pow2(i), 7) % 2 == 1) == Bits(b, 8)[i]
  {
    hide Bits, Shr, Pow2;
    var x := b * Pow2(i);
    BitsShl(b, 8, i);
    BitsLow(x, 8 + i, 8);
    LeadingBit(x);
    assert Bits(x, 8 + i)[i..][0] == Bits(x, 8 + i)[i];
  }

  // The eight bits that start h bits before the end of b and continue into c. For h == 8 all
  // of them are in b and c does not matter.
  lemma ByteAcross(b: byte, c: byte, h: nat)
    requires 1 <= h <= 8
    ensures Or(b * Pow2(8 - h) % 256, Shr(c, h)) < 256
    ensures Bits(Or(b * Pow2(8 - h) % 256, Shr(c, h)), 8) == Bits(b, 8)[8 - h..] + Bits(c, 8)[..8 - h]
  {
    hide Bits, Shr, Or, Pow2;
    SpillByte(b, h);
    OrAcross(b * Pow2(8 - h) % 256, Bits(b, 8)[8 - h..], c);
  }

  lemma ByteBitsFirst(bytes: seq<byte>)
    requires bytes != []
    ensures ByteBits(bytes) == Bits(bytes[0], 8) + ByteBits(bytes[1..])
  {
    hide Bits, ByteBits;
    ByteBitsConcat([bytes[0]], bytes[1..]);
    ByteBitsSingle(bytes[0]);
    assert [bytes[0]] + bytes[1..] == bytes;
  }

  // The unread bits: `head` bits of the byte at `index`, then all later bytes.
  function Unread(bytes: seq<byte>, index: nat, head: nat): (b: seq<bool>)
    requires head <= 8
  {
    if index >= |bytes| then [] else Bits(bytes[index], 8)[8 - head..] + ByteBits(bytes[index + 1..])
  }

  lemma UnreadWhole(bytes: seq<byte>, index: nat)
    requires index <= |bytes|
    ensures Unread(bytes, index, 8) == ByteBits(bytes[index..])
    ensures index < |bytes| ==> Unread(bytes, index, 0) == ByteBits(bytes[index + 1..])
  {
    hide Bits;
    if index < |bytes| {
      ByteBitsFirst(bytes[index..]);
      assert bytes[index..][1..] == bytes[index + 1..];
      var b := Bits(bytes[index], 8);
      assert b[0..] == b && b[8..] == [];
      assert [] + ByteBits(bytes[index + 1..]) == ByteBits(bytes[index + 1..]);
    }
  }

  // n bits taken from within one byte.
  lemma UnreadWithin(bytes: seq<byte>, index: nat, head: nat, n: nat)
    requires index < |bytes| && n <= head <= 8
    ensures Unread(bytes, index, head)[..n] == Bits(bytes[index], 8)[8 - head..8 - head + n]
    ensures Unread(bytes, index, head)[n..] == Unread(bytes, index, head - n)
  {
    hide Bits, ByteBits;
    var b, u := Bits(bytes[index], 8), Unread(bytes, index, head);
    assert u[..n] == b[8 - head..][..n];
  }

  lemma UnreadBit(bytes: seq<byte>, index: nat, head: nat)
    requires index < |bytes| && 1 <= head <= 8
    ensures var u := Unread(bytes, index, head);
            && u != []
            && (Shr(bytes[index] * Pow2(8 - head), 7) % 2 == 1) == u[0]
            && u[1..] == Unread(bytes, index, head - 1)
  {
    hide Bits, Shr, Pow2, ByteBits;
    UnreadWithin(bytes, index, head, 1);
    BitAt(bytes[index], 8 - head);
  }

  // Eight bits that may run into the next byte.
  lemma UnreadByte(bytes: seq<byte>, index: nat, head: nat)
    requires index < |bytes| && 1 <= head <= 8
    requires head == 8 || index + 1 < |bytes|
    ensures var c := if index + 1 < |bytes| then bytes[index + 1] else 0;
            var u := Unread(bytes, index, head);
            && |u| >= 8
            && u[..8] == Bits(bytes[index], 8)[8 - head..] + Bits(c, 8)[..8 - head]
            && u[8..] == Unread(bytes, index + 1, head)
  {
    hide Bits, ByteBits;
    var b, u := Bits(bytes[index], 8), Unread(bytes, index, head);
    if index + 1 < |bytes| {
      var c, rest := Bits(bytes[index + 1], 8), ByteBits(bytes[index + 2..]);
      ByteBitsFirst(bytes[index + 1..]);
      assert bytes[index + 1..][1..] == bytes[index + 2..];
      assert u == b[8 - head..] + c + rest;
    } else {
      assert bytes[index + 1..] == [];
      assert ByteBits([]) == [] by { NoBytes(); }
      assert u == b;
    }
  }

  lemma NoBytes()
    ensures ByteBits([]) == []
  {
  }

  lemma UnreadShort(bytes: seq<byte>, index: nat, head: nat)
    requires head <= 8
    ensures index >= |bytes| ==> Unread(bytes, index, head) == []
    ensures index + 1 == |bytes| ==> |Unread(bytes, index, head)| == head
    ensures index + 1 < |bytes| ==> |Unread(bytes, index, head)| >= 8 + head
  {
  }

  // The byte that the reader assembles from b and c.
  function Assemble(b: byte, c: byte, h: nat): byte
    requires 1 <= h <= 8
  {
    ByteAcross(b, c, h);
    Or(b * Pow2(8 - h) % 256, Shr(c, h))
  }

  lemma AssembleUnread(bytes: seq<byte>, c: byte, index: nat, head: nat)
    requires index < |bytes| && 1 <= head <= 8
    requires if index + 1 < |bytes| then c == bytes[index + 1] else head == 8
    ensures var u := Unread(bytes, index, head);
            && |u| >= 8
            && Bits(Assemble(bytes[index], c, head), 8) == u[..8]
            && u[8..] == Unread(bytes, index + 1, head)
  {
    hide Bits, ByteBits, Shr, Or, Pow2, Unread;
    UnreadByte(bytes, index, head);
    ByteAcross(bytes[index], c, head);
    if head == 8 {
      var d := if index + 1 < |bytes| then bytes[index + 1] else 0;
      assert Bits(c, 8)[..0] == [] && Bits(d, 8)[..0] == [];
    }
  }

  // One accumulation step of a multi-bit read.
  function Shifted(acc: uint64, k: nat, x: uint64): uint64
  {
    Pow2Word();
    OrBound(acc * Pow2(k) % U64, x, 64);
    Or(acc * Pow2(k) % U64, x)
  }

  lemma ShiftedAdds(acc: uint64, k: nat, x: uint64)
    requires x < Pow2(k) && acc * Pow2(k) + x < U64
    ensures Shifted(acc, k, x) == acc * Pow2(k) + x
  {
    hide Or, Pow2;
    var high: nat := acc * Pow2(k);
    assert high % U64 == high;
    OrAdds(acc, k, x);
  }

  lemma Accumulate(all: seq<bool>, k: nat, n: nat)
    requires k + n <= |all| && k + n <= 64
    ensures Val(all[..k]) < U64 && Val(all[k..k + n]) < U64 && Val(all[..k + n]) < U64
    ensures Shifted(Val(all[..k]), n, Val(all[k..k + n])) == Val(all[..k + n])
  {
    hide Val, Pow2, Bits, Shifted;
    var a, b := all[..k], all[k..k + n];
    assert all[..k + n] == a + b;
    ValConcat(a, b);
    BitsOfVal(b);
    WordValue(a);
    WordValue(b);
    WordValue(a + b);
    ShiftedAdds(Val(a), n, Val(b));
  }

  lemma WordValue(bits: seq<bool>)
    requires |bits| <= 64
    ensures Val(bits) < U64
  {
    hide Val, Pow2, Bits;
    BitsOfVal(bits);
    Pow2Word();
    Pow2Monotone(|bits|, 64);
  }

  lemma ByteValue(b: byte)
    ensures Val(Bits(b, 8)) == b
  {
    hide Val, Bits;
    ValOfBits(b, 8);
    Pow2Byte();
  }

  // n bits from the middle of a byte, as the source masks them out.
  lemma SliceValue(b: byte, head: nat, n: nat)
    requires n <= head <= 8
    ensures Val(Bits(b, 8)[8 - head..8 - head + n]) == Shr(b, head - n) % Pow2(n)
  {
    hide Val, Bits, Shr, Pow2;
    BitsHigh(b, 8, head - n);
    var c := Shr(b, head - n);
    BitsLow(c, 8 - head + n, n);
    ValOfBits(c, n);
    assert Bits(b, 8)[..8 - head + n][8 - head..] == Bits(b, 8)[8 - head..8 - head + n];
  }

  lemma TakeFromByte(all: seq<bool>, k: nat, bytes: seq<byte>, index: nat, head: nat, n: nat)
    requires n <= head <= 8 && k + n <= |all| && k + n <= 64 && index < |bytes|
    requires all[k..] == Unread(bytes, index, head)
    ensures Val(all[..k]) < U64 && Val(all[..k + n]) < U64
    ensures Shr(bytes[index], head - n) % Pow2(n) < U64
    ensures Shifted(Val(all[..k]), n, Shr(bytes[index], head - n) % Pow2(n)) == Val(all[..k + n])
    ensures all[k + n..] == Unread(bytes, index, head - n)
  {
    hide Val, Bits, Shr, Pow2, Unread, Shifted;
    UnreadWithin(bytes, index, head, n);
    SliceValue(bytes[index], head, n);
    assert all[k..][..n] == all[k..k + n] && all[k..][n..] == all[k + n..];
    Accumulate(all, k, n);
  }

  lemma ShrNothing(b: nat)
    ensures Shr(b, 0) == b
  {
  }

  class BitReader {
    const bytes: seq<byte>
    // Whatever lies behind the last byte; aligned reads fetch it and shift or mask it away.
    const past: byte
    var index: nat
    var headCount: nat

    ghost predicate Valid()
      reads this
    {
      headCount <= 8
    }

    ghost function Rest(): seq<bool>
      requires Valid()
      reads this
    {
      Unread(bytes, index, headCount)
    }

    constructor (bytes: seq<byte>, past: byte)
      ensures Valid() && this.bytes == bytes && this.past == past
      ensures index == 0 && headCount == (if bytes == [] then 0 else 8)
      ensures Rest() == ByteBits(bytes)
    {
      this.bytes := bytes;
      this.past := past;
      index := 0;
      headCount := if |bytes| >= 1 then 8 else 0;
      UnreadWhole(bytes, 0);
      assert bytes[0..] == bytes;
    }

    function ByteAt(i: nat): byte
      reads this
    {
      if i < |bytes| then bytes[i] else past
    }

    method PopFront()
      requires Valid() && index < |bytes| && headCount == 8
      modifies this
      ensures Valid() && headCount == 8
      ensures Rest() == old(Rest())[8..]
    {
      UnreadByte(bytes, index, 8);
      index := index + 1;
    }

    method ReadBit() returns (bit: Option<bool>)
      requires Valid()
      modifies this
      ensures Valid()
      ensures old(Rest()) != [] ==> bit == Some(old(Rest())[0]) && Rest() == old(Rest())[1..]
      ensures old(Rest()) == [] ==> bit == None && Rest() == []
    {
      hide Bits, Shr, Pow2, Unread;
      UnreadShort(bytes, index, headCount);
      if index >= |bytes| { return None; }
      if headCount == 0 {
        UnreadWhole(bytes, index);
        index := index + 1;
        UnreadWhole(bytes, index);
        UnreadShort(bytes, index, 0);
        if index >= |bytes| { return None; }
        headCount := 8;
        UnreadShort(bytes, index, headCount);
      }
      UnreadBit(bytes, index, headCount);
      bit := Some(Shr(ByteAt(index) * Pow2(8 - headCount), 7) % 2 == 1);
      headCount := headCount - 1;
    }

    method ReadByte() returns (x: Option<byte>)
      requires Valid()
      modifies this
      ensures Valid()
      ensures |old(Rest())| >= 8 ==>
                && x.Some? && Bits(x.value, 8) == old(Rest())[..8]
                && Rest() == old(Rest())[8..]
                && (Rest() == [] ==> index >= |bytes| && headCount == 8)
      ensures |old(Rest())| < 8 ==> x == None
    {
      hide Bits, Shr, Or, Pow2, Unread;
      UnreadShort(bytes, index, headCount);
      if index >= |bytes| { return None; }
      if headCount == 0 {
        UnreadWhole(bytes, index);
        index := index + 1;
        UnreadWhole(bytes, index);
        if index >= |bytes| { return None; }
        headCount := 8;
        UnreadShort(bytes, index, headCount);
      }
      var temp := ByteAt(index) * Pow2(8 - headCount) % 256;
      ghost var i := index;
      index := index + 1;
      if headCount != 8 && index >= |bytes| { return None; }
      AssembleUnread(bytes, ByteAt(index), i, headCount);
      UnreadShort(bytes, index, headCount);
      return Some(Or(temp, Shr(ByteAt(index), headCount)));
    }

    // Reads num bits as an unsigned number, whole bytes first. Too few bits are noticed, except
    // where the read goes on from a byte boundary at the very end.
    method ReadBits(num: nat) returns (x: Option<uint64>)
      requires Valid() && num <= 64
      modifies this
      ensures Valid()
      ensures |old(Rest())| >= num ==> x == Some(Val(old(Rest())[..num])) && Rest() == old(Rest())[num..]
      ensures x == None <==> |old(Rest())| < num && !Unguarded(bytes, old(index), old(headCount), num)
    {
      hide Bits, Val, Shr, Pow2, Unread, Shifted, Gathered, Masked;
      ghost var all, at, head := Rest(), index, headCount;
      var left: nat := num;
      var result: uint64 := 0;
      GatheredNothing(all, num);
      while left >= 8
        invariant Valid() && left <= num
        invariant Gathered(all, num, left, result, Rest())
        invariant Consumed(all, num, left, bytes, at, head, index, headCount)
      {
        ghost var rest := Rest();
        var temp := ReadByte();
        GatheredByte(all, num, left, result, rest, if temp == None then 0 else temp.value);
        if temp == None { return None; }
        left := left - 8;
        result := Shifted(result, 8, temp.value);
      }
      ConsumedShort(all, num, left, bytes, at, head, index, headCount);
      if headCount < left {
        GatheredHead(all, num, left, result, bytes, index, headCount, ByteAt(index));
        result := Shifted(result, headCount, Masked(ByteAt(index), headCount));
        left := left - headCount;
        index := index + 1;
        if index >= |bytes| { return None; }
        headCount := 8;
      }
      GatheredTail(all, num, left, result, bytes, index, headCount, ByteAt(index));
      result := Shifted(result, left, Masked(Shr(ByteAt(index), headCount - left), left));
      headCount := headCount - left;
      return Some(result);
    }

    // Groups past the tenth would be shifted out of the word; their shift is undefined in the source.
    // The read fails exactly when the varint does not end among the unread bits.
    method ReadUnsignedVarint() returns (x: Option<uint64>)
      requires Valid()
      modifies this
      ensures Valid()
      ensures var o := ReadUVarint(old(Rest()), MAX_VARINT_LEN_64);
              o.Some? ==> x == Some(o.value.0 % U64) && Rest() == o.value.1
      ensures x == None <==> !Ends(old(Rest()))
    {
      hide Bits, Val, Or, Pow2, Unread, ReadUVarint, Above;
      ghost var goal := ReadUVarint(Rest(), MAX_VARINT_LEN_64);
      ghost var k := 0;
      var acc: uint64, shift := 0, 0;
      PowNothing();
      while true
        invariant Valid() && shift == 7 * k && Ends(Rest()) == Ends(old(Rest()))
        invariant goal.Some? ==> k <= MAX_VARINT_LEN_64 && Partial(goal.value, acc, k, ReadUVarint(Rest(), MAX_VARINT_LEN_64 - k))
        decreases |Rest()|
      {
        ghost var u := Rest();
        var current := ReadByte();
        if goal.Some? { GroupStep(u, MAX_VARINT_LEN_64 - k); }
        if current == None { return None; }
        ByteValue(current.value);
        if goal.Some? {
          if current.value < 128 {
            PartialLast(goal.value, acc, k, current.value, u);
          } else {
            PartialMore(goal.value, acc, k, current.value, u);
          }
        }
        acc := OrGroup(acc, current.value % 128, shift);
        shift := shift + 7;
        k := k + 1;
        if current.value / 128 == 0 { return Some(acc); }
      }
    }

    method ReadSignedVarint() returns (x: Option<int64>)
      requires Valid()
      modifies this
      ensures Valid()
      ensures var o := ReadVarint(old(Rest()));
              o.Some? ==> x == Some(o.value.0) && Rest() == o.value.1
      ensures x == None <==> !Ends(old(Rest()))
    {
      var u := ReadUnsignedVarint();
      if u == None { return None; }
      return Some(UnZigZag(u.value));
    }
  }

  // Some whole byte of the unread bits closes a varint.
  predicate Ends(u: seq<bool>)
  {
    |u| >= 8 && (Val(u[..8]) < 128 || Ends(u[8..]))
  }

  // A read of num bits with too few left, whose last bits are taken from behind the end: the whole
  // bytes of the read use up what there is, and the reader stands at a byte boundary behind it.
  predicate Unguarded(bytes: seq<byte>, index: nat, head: nat, num: nat)
    requires head <= 8
  {
    var u := |Unread(bytes, index, head)|;
    u < num && u == num - num % 8 && (num >= 8 || (index >= |bytes| && head >= num))
  }

  // Whole bytes have been read from where the reader stood at first.
  predicate Consumed(all: seq<bool>, num: nat, left: nat, bytes: seq<byte>, at: nat, head: nat, index: nat, headCount: nat)
    requires left <= num && head <= 8 && headCount <= 8
  {
    var rest := Unread(bytes, index, headCount);
    && all == Unread(bytes, at, head) && (num - left) % 8 == 0 && |all| == |rest| + (num - left)
    && (left < num ==> (rest == [] ==> index >= |bytes| && headCount == 8))
    && (left == num ==> index == at && headCount == head)
  }

  // Whether the rest of the read fails.
  lemma ConsumedShort(all: seq<bool>, num: nat, left: nat, bytes: seq<byte>, at: nat, head: nat, index: nat, headCount: nat)
    requires left <= num && left < 8 && head <= 8 && headCount <= 8 && Consumed(all, num, left, bytes, at, head, index, headCount)
    ensures (headCount < left && index + 1 >= |bytes|) <==> |all| < num && !Unguarded(bytes, at, head, num)
  {
    hide Unread;
    UnreadShort(bytes, index, headCount);
    assert num % 8 == left;
  }

  // `current & 0x7F` shifted into place. A shift of 64 or more is undefined in the source.
  function OrGroup(acc: uint64, group: nat, shift: nat): uint64
    requires group < 128
  {
    var g := if shift < 64 then group * Pow2(shift) % U64 else 0;
    Pow2Word();
    OrBound(acc, g, 64);
    Or(acc, g)
  }

  // h as a number of groups above the first k.
  function Above(k: nat, h: nat): nat { Pow2(7 * k) * h }

  // k groups have been read into acc; `o` is what the rest of the varint decodes to.
  predicate Partial(goal: (nat, seq<bool>), acc: uint64, k: nat, o: Option<(nat, seq<bool>)>)
  {
    o.Some? && k <= 9 && acc < Pow2(7 * k) && goal == (acc + Above(k, o.value.0), o.value.1)
  }

  lemma PowNothing()
    ensures Pow2(7 * 0) == 1
    ensures forall h: nat :: Above(0, h) == h
  {
    forall h: nat ensures Above(0, h) == h { assert Pow2(0) == 1; }
  }

  lemma GroupStep(u: seq<bool>, left: nat)
    requires ReadUVarint(u, left).Some?
    ensures left > 0 && |u| >= 8
    ensures var b := Val(u[..8]);
            if b < 128 then ReadUVarint(u, left) == Some((b, u[8..]))
            else var o := ReadUVarint(u[8..], left - 1);
                 o.Some? && ReadUVarint(u, left) == Some((b % 128 + 128 * o.value.0, o.value.1))
  {
    hide Val;
  }

  lemma PartialLast(goal: (nat, seq<bool>), acc: uint64, k: nat, b: byte, u: seq<bool>)
    requires k <= 10 && Partial(goal, acc, k, ReadUVarint(u, 10 - k))
    requires |u| >= 8 && Val(u[..8]) == b < 128
    ensures OrGroup(acc, b % 128, 7 * k) == goal.0 % U64 && goal.1 == u[8..]
  {
    hide Val, ReadUVarint, Or, OrGroup, Pow2, Above;
    GroupStep(u, 10 - k);
    assert b % 128 == b;
    OrGroupAdds(acc, b, k);
  }

  lemma PartialMore(goal: (nat, seq<bool>), acc: uint64, k: nat, b: byte, u: seq<bool>)
    requires k <= 10 && Partial(goal, acc, k, ReadUVarint(u, 10 - k))
    requires |u| >= 8 && Val(u[..8]) == b >= 128
    ensures k + 1 <= 10 && Partial(goal, OrGroup(acc, b % 128, 7 * k), k + 1, ReadUVarint(u[8..], 10 - (k + 1)))
  {
    hide Val, ReadUVarint, Or, OrGroup, Pow2, Above;
    GroupStep(u, 10 - k);
    var o := ReadUVarint(u[8..], 10 - (k + 1));
    LeftoverGroups(u[8..], 10 - (k + 1));
    PartialGrow(goal, acc, k, b % 128, o);
  }

  lemma PartialGrow(goal: (nat, seq<bool>), acc: uint64, k: nat, g: nat, o: Option<(nat, seq<bool>)>)
    requires k <= 8 && g < 128 && acc < Pow2(7 * k) && o.Some?
    requires goal == (acc + Above(k, g + 128 * o.value.0), o.value.1)
    ensures Partial(goal, OrGroup(acc, g, 7 * k), k + 1, o)
  {
    hide Or, OrGroup, Pow2, Above;
    OrGroupAdds(acc, g, k);
    PartialSum(acc, g, k, o.value.0);
  }

  lemma OrGroupAdds(acc: uint64, group: nat, k: nat)
    requires k <= 9 && acc < Pow2(7 * k) && group < 128
    ensures OrGroup(acc, group, 7 * k) == (acc + Above(k, group)) % U64
  {
    hide Or, Pow2;
    OrShiftedIn(acc, group, 7 * k);
  }

  lemma LeftoverGroups(u: seq<bool>, left: nat)
    requires ReadUVarint(u, left).Some?
    ensures left >= 1
  {
  }

  lemma PartialSum(acc: nat, g: nat, k: nat, high: nat)
    requires k <= 8 && acc < Pow2(7 * k) && g < 128
    ensures acc + Above(k, g) < Pow2(7 * (k + 1))
    ensures (acc + Above(k, g)) % U64 == acc + Above(k, g)
    ensures acc + Above(k, g + 128 * high) == (acc + Above(k, g)) + Above(k + 1, high)
  {
    hide Pow2;
    Pow2Byte();
    Pow2Word();
    Pow2Add(7 * k, 7);
    Pow2Monotone(7 * (k + 1), 64);
    var p := Pow2(7 * k);
    assert 7 * (k + 1) == 7 * k + 7;
    assert Pow2(7 * (k + 1)) == p * 128;
    MulMonotone(g + 1, 128, p);
    assert (g + 1) * p == p * g + p;
    assert p * (g + 128 * high) == p * g + p * 128 * high;
  }

  // x & ((1 << k) - 1).
  function Masked(x: nat, k: nat): byte
    requires k <= 8
  {
    Pow2Byte();
    Pow2Monotone(k, 8);
    x % Pow2(k)
  }

  // What a multi-bit read has so far, when there are enough bits for all of it.
  predicate Gathered(all: seq<bool>, num: nat, left: nat, result: uint64, rest: seq<bool>)
    requires left <= num
  {
    |all| >= num ==> result == Val(all[..num - left]) && rest == all[num - left..]
  }

  lemma GatheredNothing(all: seq<bool>, num: nat)
    ensures Gathered(all, num, num, 0, all)
  {
    assert all[..0] == [] && all[0..] == all;
  }

  lemma GatheredByte(all: seq<bool>, num: nat, left: nat, result: uint64, rest: seq<bool>, x: byte)
    requires 8 <= left <= num <= 64 && Gathered(all, num, left, result, rest)
    ensures |all| >= num ==> |rest| >= 8
    ensures |rest| >= 8 && Bits(x, 8) == rest[..8] ==> Gathered(all, num, left - 8, Shifted(result, 8, x), rest[8..])
  {
    hide Val, Bits, Shifted;
    if |all| >= num && Bits(x, 8) == rest[..8] {
      var k := num - left;
      ByteValue(x);
      assert rest[..8] == all[k..k + 8] && rest[8..] == all[k + 8..];
      Accumulate(all, k, 8);
    }
  }

  lemma GatheredHead(all: seq<bool>, num: nat, left: nat, result: uint64, bytes: seq<byte>, index: nat, head: nat, b: byte)
    requires head < left <= num <= 64 && head <= 8 && Gathered(all, num, left, result, Unread(bytes, index, head))
    requires index < |bytes| ==> b == bytes[index]
    ensures |all| >= num ==> index + 1 < |bytes|
    ensures Gathered(all, num, left - head, Shifted(result, head, Masked(b, head)), Unread(bytes, index + 1, 8))
  {
    hide Val, Bits, Shifted, Unread, Shr, Pow2;
    if |all| >= num {
      UnreadShort(bytes, index, head);
      TakeFromByte(all, num - left, bytes, index, head, head);
      ShrNothing(bytes[index]);
      UnreadWhole(bytes, index);
      UnreadWhole(bytes, index + 1);
      UnreadShort(bytes, index + 1, 8);
    }
  }

  lemma GatheredTail(all: seq<bool>, num: nat, left: nat, result: uint64, bytes: seq<byte>, index: nat, head: nat, b: byte)
    requires left <= head <= 8 && left <= num <= 64 && Gathered(all, num, left, result, Unread(bytes, index, head))
    requires index < |bytes| ==> b == bytes[index]
    ensures |all| >= num ==>
              && Shifted(result, left, Masked(Shr(b, head - left), left)) == Val(all[..num])
              && Unread(bytes, index, head - left) == all[num..]
  {
    hide Val, Bits, Shifted, Unread, Shr, Pow2;
    if |all| >= num {
      UnreadShort(bytes, index, head);
      if left > 0 {
        TakeFromByte(all, num - left, bytes, index, head, left);
      } else {
        ShiftedNothing(result, Shr(b, head));
      }
    }
  }

  lemma ShiftedNothing(acc: uint64, x: nat)
    ensures Shifted(acc, 0, Masked(x, 0)) == acc
  {
    OrCommutes(acc, 0);
    OrZero(acc);
  }
}
