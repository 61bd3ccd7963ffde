/**
  XOR chunks as bytes in memory: the appender and the iterator, step by step, proved against
  the code on bit strings in `XorCodec`.

  A chunk is a reserved header, a 16-bit big-endian sample count, and the packed bits.
*/
module XorChunks {
  import opened Words
  import opened XorCodec
  import opened BitStreams

  // The bytes of a chunk ///////////////////////////////////////////////////////////

  predicate Shaped(stream: seq<byte>, tail: nat, header: nat)
  {
    && Packed(stream, tail)
    && |stream| >= header + 2
    && (tail > 0 ==> |stream| > header + 2)
  }

  lemma ShapedPayload(stream: seq<byte>, tail: nat, header: nat)
    requires Shaped(stream, tail, header)
    ensures Packed(stream[header + 2..], tail)
  {
    UnpackSplit(stream, tail, header + 2);
  }

  // The bits after the count.
  function PayloadOf(stream: seq<byte>, tail: nat, header: nat): seq<bool>
    requires Shaped(stream, tail, header)
  {
    ShapedPayload(stream, tail, header);
    Unpack(stream[header + 2..], tail)
  }

  function CountOf(stream: seq<byte>, header: nat): uint16
    requires |stream| >= header + 2
  {
    (stream[header] as int) * 256 + stream[header + 1]
  }

  function PutCount(stream: seq<byte>, header: nat, n: nat): (s: seq<byte>)
    requires |stream| >= header + 2
    ensures |s| == |stream|
    ensures CountOf(s, header) == n % 0x1_0000
    ensures s[header + 2..] == stream[header + 2..]
    ensures forall i :: 0 <= i < |s| && i != header && i != header + 1 ==> s[i] == stream[i]
  {
    var s := stream[header + 1 := n % 256][header := n / 256 % 256];
    assert s[header + 2..] == stream[header + 2..];
    s
  }

  // A write that keeps the count and the header only lengthens the payload.
  lemma PayloadGrows(s: seq<byte>, t: nat, s': seq<byte>, t': nat, header: nat, bits: seq<bool>)
    requires Shaped(s, t, header) && Packed(s', t') && |s'| >= header + 2 && (t' > 0 ==> |s'| > header + 2)
    requires s'[..header + 2] == s[..header + 2]
    requires Unpack(s', t') == Unpack(s, t) + bits
    ensures Shaped(s', t', header) && PayloadOf(s', t', header) == PayloadOf(s, t, header) + bits
  {
    hide Packed, Unpack, ByteBits;
    var k := header + 2;
    UnpackSplit(s, t, k);
    UnpackSplit(s', t', k);
    var front, a, b := ByteBits(s[..k]), PayloadOf(s, t, header), PayloadOf(s', t', header);
    assert front + b == front + (a + bits);
    assert b == (front + b)[|front|..] == a + bits;
  }

  lemma PayloadKept(s: seq<byte>, s': seq<byte>, t: nat, header: nat)
    requires Shaped(s, t, header) && |s'| == |s| && s'[header + 2..] == s[header + 2..]
    ensures Shaped(s', t, header) && PayloadOf(s', t, header) == PayloadOf(s, t, header)
  {
    hide ByteBits, Bits, Zeros;
    if t > 0 {
      assert s'[|s| - 1] == s'[header + 2..][|s| - header - 3];
      assert s[|s| - 1] == s[header + 2..][|s| - header - 3];
    }
  }

  // Whatever follows a chunk in memory follows its payload in bits.
  lemma PayloadAsBytes(s: seq<byte>, t: nat, header: nat, junk: seq<byte>)
    requires Shaped(s, t, header)
    ensures PayloadOf(s, t, header) <= ByteBits(s[header + 2..] + junk)
  {
    hide ByteBits;
    ShapedPayload(s, t, header);
    ByteBitsConcat(s[header + 2..], junk);
  }

  // The appender ///////////////////////////////////////////////////////////////////

  method EncodeUnsignedVarint(value: uint64) returns (buffer: seq<byte>)
    ensures buffer == UVarint(value)
  {
    var v := value;
    buffer := [];
    while true
      invariant buffer + UVarint(v) == UVarint(value)
      decreases v
    {
      var next: byte := v % 128;
      ghost var before := v;
      v := v / 128;
      if v != 0 { next := next + 128; }
      assert UVarint(before) == [next] + (if v != 0 then UVarint(v) else []);
      buffer := buffer + [next];
      if v == 0 { break; }
    }
  }

  // What follows the first control bit.
  function ReusedBits(d: uint64, lead: nat, trail: nat): seq<bool>
    requires lead + trail <= 63
  {
    [false] + Bits(Shr(d, trail), 64 - lead - trail)
  }

  function FreshBits(d: uint64, lead: nat, trail: nat): seq<bool>
    requires lead + trail <= 63
  {
    [true] + Bits(lead, 5) + Bits(64 - lead - trail, 6) + Bits(Shr(d, trail), 64 - lead - trail)
  }

  lemma ValueCases(w: Codec, v: uint64, d: uint64)
    requires WindowOk(w) && d == Difference(w, v)
    ensures d == 0 ==> EncodeValue(w, v) == [false] && NextWindow(w, v) == (w.lead, w.trail)
    ensures d > 0 && Reuses(w, d) ==>
              && NextWindow(w, v) == (w.lead, w.trail)
              && forall start: seq<bool> :: start + [true] + ReusedBits(d, w.lead, w.trail) == start + EncodeValue(w, v)
    ensures d > 0 && !Reuses(w, d) ==>
              var (lead, trail) := NextWindow(w, v);
              && lead == Min(Clz(d), 31) && trail == Ctz(d) && lead + trail <= 63
              && forall start: seq<bool> :: start + [true] + FreshBits(d, lead, trail) == start + EncodeValue(w, v)
  {
    hide Bits, Xor, Shr, Ctz, Clz;
    if d > 0 {
      FreshWindow(d);
      if Reuses(w, d) {
        assert EncodeValue(w, v) == [true] + ReusedBits(d, w.lead, w.trail);
      } else {
        var (lead, trail) := NextWindow(w, v);
        assert EncodeValue(w, v) == [true] + FreshBits(d, lead, trail);
      }
    }
  }

  class XORAppender {
    const bstream: BitWriter
    var timestamp: int64
    var value: uint64
    var deltaTimestamp: uint64
    var leadingZero: nat
    var trailingZero: nat

    ghost function State(): Codec
      reads this
    {
      Codec(timestamp, value, deltaTimestamp, leadingZero, trailingZero)
    }

    ghost predicate Valid()
      reads this, bstream
    {
      WindowOk(State()) && Shaped(bstream.stream, bstream.tailCount, bstream.headerSize)
    }

    ghost function Payload(): seq<bool>
      requires Valid()
      reads this, bstream
    {
      PayloadOf(bstream.stream, bstream.tailCount, bstream.headerSize)
    }

    ghost function Count(): uint16
      requires Valid()
      reads this, bstream
    {
      CountOf(bstream.stream, bstream.headerSize)
    }

    constructor (bstream: BitWriter, state: Codec)
      ensures this.bstream == bstream && State() == state
    {
      this.bstream := bstream;
      timestamp := state.ts;
      value := state.val;
      deltaTimestamp := state.delta;
      leadingZero := state.lead;
      trailingZero := state.trail;
    }

    method WriteDeltaValue(v: uint64)
      requires WindowOk(State()) && bstream.Valid()
      modifies bstream, `leadingZero, `trailingZero
      ensures bstream.Valid() && bstream.Extended()
      ensures bstream.Written() == old(bstream.Written()) + EncodeValue(old(State()), v)
      ensures (leadingZero, trailingZero) == NextWindow(old(State()), v)
    {
      hide Bits, Packed, Unpack, Xor, Shr, Ctz, Clz, EncodeValue, NextWindow;
      ghost var start := bstream.Written();
      XorIsWord(v, value);
      var d: uint64 := Xor(v, value);
      ValueCases(State(), v, d);
      if d == 0 {
        bstream.WriteBit(false);
        return;
      }
      bstream.WriteBit(true);
      FreshWindow(d);
      var lz, tz := Clz(d), Ctz(d);
      if lz >= 32 { lz := 31; }
      if leadingZero != NO_WINDOW && lz >= leadingZero && tz >= trailingZero {
        WriteReused(d);
      } else {
        leadingZero := lz;
        trailingZero := tz;
        WriteWindow(d);
      }
    }

    // The difference in the current window.
    method WriteReused(d: uint64)
      requires bstream.Valid() && leadingZero + trailingZero <= 63
      modifies bstream
      ensures bstream.Valid() && bstream.Extended()
      ensures bstream.Written() == old(bstream.Written()) + ReusedBits(d, leadingZero, trailingZero)
    {
      hide Bits, Packed, Unpack, Shr;
      WindowBits(d, trailingZero);
      bstream.WriteBit(false);
      bstream.WriteBits(Shr(d, trailingZero), 64 - leadingZero - trailingZero);
    }

    // A fresh window and the difference in it.
    method WriteWindow(d: uint64)
      requires bstream.Valid() && leadingZero <= 31 && leadingZero + trailingZero <= 63
      modifies bstream
      ensures bstream.Valid() && bstream.Extended()
      ensures bstream.Written() == old(bstream.Written()) + FreshBits(d, leadingZero, trailingZero)
    {
      hide Bits, Packed, Unpack, Shr;
      WindowBits(d, trailingZero);
      bstream.WriteBit(true);
      bstream.WriteBits(leadingZero, 5);
      var sigbits := 64 - leadingZero - trailingZero;
      bstream.WriteBits(sigbits, 6);
      bstream.WriteBits(Shr(d, trailingZero), sigbits);
    }

    // The bits of one sample; the new delta is returned.
    method WriteSample(n: nat, t: int64, v: uint64) returns (currentDelta: uint64)
      requires WindowOk(State()) && bstream.Valid()
      modifies bstream, `leadingZero, `trailingZero
      ensures bstream.Valid() && bstream.Extended()
      ensures bstream.Written() == old(bstream.Written()) + EncodeSample(old(State()), n, Sample(t, v))
      ensures currentDelta == NextDelta(old(State()), n, t)
      ensures (leadingZero, trailingZero) == (if n == 0 then old((leadingZero, trailingZero)) else NextWindow(old(State()), v))
    {
      hide Bits, Packed, Unpack, EncodeValue, EncodeVarint, DodBits, NextWindow, ToU64, ToI64;
      currentDelta := 0;
      if n == 0 {
        WriteVarint(t);
        bstream.WriteBits(v, 64);
      } else if n == 1 {
        currentDelta := ToU64(t - timestamp);
        WriteVarint(ToI64(currentDelta));
        WriteDeltaValue(v);
      } else {
        currentDelta := ToU64(t - timestamp);
        WriteDeltaOfDelta(ToI64(currentDelta - deltaTimestamp));
        WriteDeltaValue(v);
      }
    }

    method Append(t: int64, v: uint64)
      requires Valid()
      modifies this, bstream
      ensures Valid()
      ensures Payload() == old(Payload()) + EncodeSample(old(State()), old(Count()), Sample(t, v))
      ensures State() == NextWriter(old(State()), old(Count()), Sample(t, v))
      ensures Count() == (old(Count()) + 1) % COUNT_LIMIT
      ensures bstream.end - |bstream.stream| == old(bstream.end - |bstream.stream|)
      ensures |bstream.stream| >= old(|bstream.stream|)
      ensures forall i :: 0 <= i < old(bstream.Settled()) && i != bstream.headerSize && i != bstream.headerSize + 1
                ==> bstream.stream[i] == old(bstream.stream[i])
    {
      hide Packed, Unpack, EncodeSample, NextWindow, NextDelta;
      ghost var w, code := State(), EncodeSample(State(), Count(), Sample(t, v));
      var header, numSamples := bstream.headerSize, CountOf(bstream.stream, bstream.headerSize);
      var currentDelta := WriteSample(numSamples, t, v);
      ghost var grown := bstream.stream;
      assert grown[..header + 2] == old(bstream.stream[..bstream.headerSize + 2]);
      PayloadGrows(old(bstream.stream), old(bstream.tailCount), grown, bstream.tailCount, header, code);
      timestamp := t;
      value := v;
      bstream.stream := PutCount(bstream.stream, header, numSamples as int + 1);
      deltaTimestamp := currentDelta;
      PayloadKept(grown, bstream.stream, bstream.tailCount, header);
      NextWindowOk(w, v);
    }

    method WriteVarint(v: int64)
      requires bstream.Valid()
      modifies bstream
      ensures bstream.Valid()
      ensures bstream.Written() == old(bstream.Written()) + EncodeVarint(v)
      ensures bstream.Extended()
    {
      hide Bits, Packed, Unpack, UVarint;
      var temp := EncodeUnsignedVarint(ZigZag(v));
      ghost var start := bstream.Written();
      for i := 0 to |temp|
        invariant bstream.Valid()
        invariant bstream.Written() == start + ByteBits(temp[..i])
        invariant bstream.Extended()
      {
        bstream.WriteByte(temp[i]);
        assert temp[..i + 1][..i] == temp[..i];
      }
      assert temp[..|temp|] == temp;
    }

    method WriteDeltaOfDelta(dod: int64)
      requires bstream.Valid()
      modifies bstream
      ensures bstream.Valid()
      ensures bstream.Written() == old(bstream.Written()) + DodBits(dod)
      ensures bstream.Extended()
    {
      hide Bits, Packed, Unpack, Pow2, ToU64;
      if dod == 0 {
        bstream.WriteBit(false);
      } else if BitRange(dod, 14) {
        bstream.WriteBits(0x02, 2);
        bstream.WriteBits(ToU64(dod), 14);
      } else if BitRange(dod, 17) {
        bstream.WriteBits(0x06, 3);
        bstream.WriteBits(ToU64(dod), 17);
      } else if BitRange(dod, 20) {
        bstream.WriteBits(0x0e, 4);
        bstream.WriteBits(ToU64(dod), 20);
      } else {
        bstream.WriteBits(0x0f, 4);
        bstream.WriteBits(ToU64(dod), 64);
      }
    }
  }

  lemma WindowBits(d: uint64, trail: nat)
    ensures Shr(d, trail) < U64
  {
    Pow2Word();
    Pow2Monotone(64, 64 + trail);
    ShrBound(d, 64, trail);
  }

  // The iterator ///////////////////////////////////////////////////////////////////

  // The control number for k leading ones: 0, 10, 110, 1110 or 1111.
  function ControlType(k: nat): nat
  {
    if k == 0 then 0x00 else if k == 1 then 0x02 else if k == 2 then 0x06 else if k == 3 then 0x0e else 0x0f
  }

  lemma PrefixStep(bits: seq<bool>, most: nat)
    requires most > 0 && bits != []
    ensures Prefix(bits, most) == if bits[0] then 1 + Prefix(bits[1..], most - 1) else 0
  {
  }

  lemma WindowedKeeps(val: uint64, lead: nat, trail: nat, bits: seq<bool>)
    ensures var o := ReadWindowed(val, lead, trail, bits);
            o.Some? ==> o.value.1 == lead && o.value.2 == trail
  {
  }

  class XORIterator {
    const reader: BitReader
    const numTotal: uint16
    var timestamp: int64
    var value: uint64
    var deltaTimestamp: uint64
    var leadingZero: nat
    var trailingZero: nat
    var numRead: nat
    var err: bool

    ghost predicate Valid()
      reads this, reader
    {
      reader.Valid() && numRead <= numTotal
    }

    ghost function State(): Codec
      reads this
    {
      Codec(timestamp, value, deltaTimestamp, leadingZero, trailingZero)
    }

    ghost function Rest(): seq<bool>
      requires Valid()
      reads this, reader
    {
      reader.Rest()
    }

    // `bytes` starts at the count; `past` is the byte behind them.
    constructor (bytes: seq<byte>, past: byte)
      requires |bytes| >= 2
      ensures Valid() && fresh(reader)
      ensures State() == FRESH_READER && numTotal == CountOf(bytes, 0) && numRead == 0 && !err
      ensures Rest() == ByteBits(bytes[2..])
    {
      var r := new BitReader(bytes, past);
      reader := r;
      numTotal := CountOf(bytes, 0);
      timestamp, value, deltaTimestamp, leadingZero, trailingZero := 0, 0, 0, 0, 0;
      numRead, err := 0, false;
      new;
      hide ByteBits;
      r.PopFront();
      r.PopFront();
      ByteBitsConcat(bytes[..2], bytes[2..]);
      assert bytes[..2] + bytes[2..] == bytes;
    }

    method ReadType() returns (control: Option<nat>)
      requires Valid()
      modifies reader
      ensures Valid()
      ensures var bits := old(Rest()); var k := Prefix(bits, 4);
              k == 4 || k < |bits| ==> control == Some(ControlType(k)) && Rest() == bits[if k == 4 then 4 else k + 1..]
    {
      hide Unread;
      ghost var bits := Rest();
      var k, c := 0, 0;
      while k < 4
        invariant Valid() && k <= 4 && k <= |bits|
        invariant Prefix(bits, 4) == k + Prefix(bits[k..], 4 - k)
        invariant Rest() == bits[k..]
        invariant c == if k == 0 then 0 else if k == 1 then 1 else if k == 2 then 3 else if k == 3 then 7 else 15
        decreases 4 - k
      {
        var bit := reader.ReadBit();
        if bit == None { return None; }
        PrefixStep(bits[k..], 4 - k);
        c := 2 * c;
        assert bits[k..][1..] == bits[k + 1..];
        if !bit.value { return Some(c); }
        c := c + 1;
        k := k + 1;
      }
      return Some(c);
    }

    method ReadDod() returns (dod: Option<int>)
      requires Valid()
      modifies reader
      ensures Valid()
      ensures var o := ReadDeltaOfDelta(old(Rest()));
              o.Some? ==> dod == Some(o.value.0) && Rest() == o.value.1
    {
      hide Unread, Val, Prefix, ToU64, Pow2;
      ghost var bits := Rest();
      ghost var k := Prefix(bits, 4);
      var control := ReadType();
      if control == None { return None; }
      var size := 0;
      match control.value {
        case 0x02 => size := 14;
        case 0x06 => size := 17;
        case 0x0e => size := 20;
        case 0x0f =>
          var x := reader.ReadBits(64);
          if x == None { return None; }
          assert |bits| >= 68 ==> bits[4..][..64] == bits[4..68] && bits[4..][64..] == bits[68..];
          return Some(ToI64(x.value));
        case _ =>
      }
      if size != 0 {
        var x := reader.ReadBits(size);
        if x == None { return None; }
        return Some(SignExtend(x.value, size));
      }
      return Some(0);
    }

    // A new window: five bits of leading zeros and six bits of length, where 0 stands for 64.
    method ReadWindow() returns (ok: bool)
      requires Valid()
      modifies reader, `leadingZero, `trailingZero
      ensures Valid()
      ensures var bits := old(Rest());
              |bits| >= 11 ==>
                var lead := Val(bits[..5]); var sig := if Val(bits[5..11]) == 0 then 64 else Val(bits[5..11]);
                ok && leadingZero == lead && trailingZero == (64 - lead - sig) % 256 && Rest() == bits[11..]
    {
      hide Unread, Val;
      ghost var bits := Rest();
      var lead := reader.ReadBits(5);
      if lead == None { return false; }
      leadingZero := lead.value;
      var sig := reader.ReadBits(6);
      if sig == None { return false; }
      assert |bits| >= 11 ==> bits[5..][..6] == bits[5..11] && bits[5..][6..] == bits[11..];
      var significant := if sig.value == 0 then 64 else sig.value;
      trailingZero := (64 - leadingZero - significant) % 256;
      return true;
    }

    // The bits inside the window, put back in place and combined with the last value.
    method ReadDifference() returns (ok: bool)
      requires Valid()
      modifies reader, `value
      ensures Valid()
      ensures var o := ReadWindowed(old(value), leadingZero, trailingZero, old(Rest()));
              o.Some? ==> ok && value == o.value.0 && Rest() == o.value.3
    {
      hide Unread, Val, Xor, Pow2;
      var size := 64 - leadingZero - trailingZero;
      // A negative size only arises from a corrupt stream, where the source's shift is undefined.
      if size < 0 { return false; }
      var x := reader.ReadBits(size);
      if x == None { return false; }
      var d: uint64 := x.value * Pow2(trailingZero) % U64;
      XorIsWord(value, d);
      value := Xor(value, d);
      return true;
    }

    method ReadValue() returns (ok: bool)
      requires Valid() && numRead < numTotal
      modifies reader, `value, `leadingZero, `trailingZero, `numRead
      ensures Valid()
      ensures numRead == old(numRead) + (if ok then 1 else 0)
      ensures var o := DecodeValue(old(State()), old(Rest()));
              o.Some? ==> ok && (value, leadingZero, trailingZero, Rest()) == o.value
    {
      hide Unread, Val, ReadWindowed;
      ghost var bits := Rest();
      var control := reader.ReadBit();
      if control == None { return false; }
      if control.value {
        control := reader.ReadBit();
        if control == None { return false; }
        assert bits[1..][1..] == bits[2..];
        if control.value {
          var read := ReadWindow();
          if !read { return false; }
          assert |bits| >= 13 ==> bits[2..][..5] == bits[2..7] && bits[2..][5..11] == bits[7..13] && bits[2..][11..] == bits[13..];
        }
        WindowedKeeps(value, leadingZero, trailingZero, Rest());
        var read := ReadDifference();
        if !read { return false; }
      }
      numRead := numRead + 1;
      return true;
    }

    method Next() returns (ok: bool)
      requires Valid()
      modifies this, reader
      ensures Valid()
      ensures numRead == old(numRead) + (if ok then 1 else 0)
      ensures old(err) || old(numRead) == numTotal ==> !ok && err == old(err) && State() == old(State()) && Rest() == old(Rest())
      ensures var o := DecodeSample(old(State()), old(numRead), old(Rest()));
              !old(err) && old(numRead) < numTotal && o.Some? ==> ok && !err && (State(), Rest()) == o.value
    {
      hide Unread, Val, ReadWindowed, ReadVarint, ReadDeltaOfDelta, ToU64, ToI64;
      if err || numRead == numTotal { return false; }
      if numRead == 0 {
        var t := reader.ReadSignedVarint();
        if t == None { err := true; return false; }
        var v := reader.ReadBits(64);
        if v == None { err := true; return false; }
        timestamp := t.value;
        value := v.value;
        numRead := numRead + 1;
        return true;
      } else if numRead == 1 {
        var d := reader.ReadSignedVarint();
        if d == None { err := true; return false; }
        deltaTimestamp := ToU64(d.value);
        timestamp := ToI64(timestamp + d.value);
        ok := ReadValue();
        return;
      }
      var dod := ReadDod();
      if dod == None { err := true; return false; }
      deltaTimestamp := ToU64(dod.value + ToI64(deltaTimestamp));
      timestamp := ToI64(timestamp + ToI64(deltaTimestamp));
      ok := ReadValue();
    }
  }

  // Whole chunks ///////////////////////////////////////////////////////////////////

  // What a chunk that starts at its count decodes to.
  function Decoded(bytes: seq<byte>): Option<seq<Sample>>
    requires |bytes| >= 2
  {
    match DecodeRun(FRESH_READER, 0, CountOf(bytes, 0), ByteBits(bytes[2..]))
    case None => None
    case Some((samples, _, _)) => Some(samples)
  }

  // The stream is the chunk of these samples, and leaves a reader in state r.
  ghost predicate ChunkOf(stream: seq<byte>, tail: nat, header: nat, samples: seq<Sample>, r: Codec)
  {
    && Shaped(stream, tail, header)
    && CountOf(stream, header) == |samples|
    && Holds(PayloadOf(stream, tail, header), samples, r)
  }

  // A chunk decodes the same whatever follows it in memory.
  lemma ChunkDecodes(stream: seq<byte>, tail: nat, header: nat, samples: seq<Sample>, r: Codec, junk: seq<byte>)
    requires ChunkOf(stream, tail, header, samples, r)
    ensures |stream[header..] + junk| >= 2
    ensures Decoded(stream[header..] + junk) == Some(samples)
    ensures var bytes := stream[header..] + junk;
            var o := DecodeRun(FRESH_READER, 0, CountOf(bytes, 0), ByteBits(bytes[2..]));
            o.Some? && o.value.0 == samples && o.value.1 == r && |samples| == CountOf(stream, header)
  {
    hide ByteBits, DecodeRun;
    var bytes := stream[header..] + junk;
    var payload := PayloadOf(stream, tail, header);
    assert bytes[2..] == stream[header + 2..] + junk;
    PayloadAsBytes(stream, tail, header, junk);
    var bits := ByteBits(bytes[2..]);
    assert bits == payload + bits[|payload|..];
    RunStable(FRESH_READER, 0, |samples|, payload, bits[|payload|..]);
  }

  // Appending through a writer in step keeps a chunk a chunk, up to the limit of the count.
  lemma ChunkAppend(stream: seq<byte>, tail: nat, stream': seq<byte>, tail': nat, header: nat,
                    samples: seq<Sample>, r: Codec, w: Codec, s: Sample) returns (r': Codec)
    requires ChunkOf(stream, tail, header, samples, r) && InStep(w, r, |samples|) && |samples| + 1 < COUNT_LIMIT
    requires Shaped(stream', tail', header)
    requires PayloadOf(stream', tail', header) == PayloadOf(stream, tail, header) + EncodeSample(w, |samples|, s)
    requires CountOf(stream', header) == (|samples| + 1) % COUNT_LIMIT
    ensures ChunkOf(stream', tail', header, samples + [s], r')
    ensures InStep(NextWriter(w, |samples|, s), r', |samples| + 1)
  {
    hide Shaped, DecodeRun, NextWriter, EncodeSample;
    r' := HoldsAppend(PayloadOf(stream, tail, header), samples, r, w, s);
  }

  lemma EmptyChunk(header: nat)
    ensures var stream: seq<byte> := seq(2 + header, _ => 0);
            ChunkOf(stream, 0, header, [], FRESH_READER)
  {
    var stream: seq<byte> := seq(2 + header, _ => 0);
    assert stream[header + 2..] == [];
    HoldsNothing();
  }

  lemma RunStep(r: Codec, n: nat, k: nat, bits: seq<bool>)
    requires k > 0 && DecodeRun(r, n, k, bits).Some?
    ensures var o := DecodeSample(r, n, bits);
            && o.Some?
            && var p := DecodeRun(o.value.0, n + 1, k - 1, o.value.1);
               p.Some? && DecodeRun(r, n, k, bits) == Some(([Sample(o.value.0.ts, o.value.0.val)] + p.value.0, p.value.1, p.value.2))
  {
    hide DecodeSample;
  }

  // Drains an iterator over the bytes behind a chunk's header, collecting what it yields.
  method Drain(it: XORIterator) returns (samples: seq<Sample>)
    requires it.Valid() && it.numRead == 0 && !it.err && it.State() == FRESH_READER
    modifies it, it.reader
    ensures it.Valid()
    ensures var o := DecodeRun(FRESH_READER, 0, it.numTotal, old(it.Rest()));
            o.Some? ==> samples == o.value.0 && !it.err && it.State() == o.value.1
  {
    hide Unread, DecodeRun, DecodeSample;
    ghost var goal := DecodeRun(FRESH_READER, 0, it.numTotal, it.Rest());
    samples := [];
    assert goal.Some? ==> [] + goal.value.0 == goal.value.0;
    while true
      invariant it.Valid()
      invariant goal.Some? ==>
                  && !it.err
                  && var o := DecodeRun(it.State(), it.numRead, it.numTotal - it.numRead, it.Rest());
                     o.Some? && goal.value == (samples + o.value.0, o.value.1, o.value.2)
      decreases it.numTotal - it.numRead
    {
      if goal.Some? && it.numRead < it.numTotal {
        RunStep(it.State(), it.numRead, it.numTotal - it.numRead, it.Rest());
      }
      ghost var before := samples;
      var more := it.Next();
      if !more { break; }
      samples := samples + [Sample(it.timestamp, it.value)];
      assert goal.Some? ==>
               var o := DecodeRun(it.State(), it.numRead, it.numTotal - it.numRead, it.Rest());
               o.Some? && before + ([Sample(it.timestamp, it.value)] + o.value.0) == samples + o.value.0;
    }
    RunNothing(it.State(), it.numRead, it.Rest());
  }

  lemma RunNothing(r: Codec, n: nat, bits: seq<bool>)
    ensures DecodeRun(r, n, 0, bits) == Some(([], r, bits))
  {
  }

  class XORChunk {
    const bstream: BitWriter

    constructor (headerSize: nat)
      ensures fresh(bstream) && bstream.headerSize == headerSize && bstream.end == |bstream.stream| == headerSize + 2
      ensures ChunkOf(bstream.stream, bstream.tailCount, headerSize, [], FRESH_READER)
    {
      bstream := new BitWriter(2, headerSize);
      new;
      EmptyChunk(headerSize);
    }

    // Recovers an appender by decoding the chunk. The iterator is given as many bytes as the
    // stream has, counted from behind the header, so `junk` bytes behind the stream belong to it.
    method Appender(junk: seq<byte>, past: byte) returns (appender: Option<XORAppender>)
      requires |bstream.stream| >= bstream.headerSize + 2
      requires |junk| == bstream.headerSize
      ensures appender.Some? ==> fresh(appender.value) && appender.value.bstream == bstream
      ensures forall samples, r :: ChunkOf(bstream.stream, bstream.tailCount, bstream.headerSize, samples, r) ==>
                appender.Some? && appender.value.State() == Reopened(r, |samples|)
    {
      hide DecodeRun, ByteBits, ChunkOf;
      forall samples, r | ChunkOf(bstream.stream, bstream.tailCount, bstream.headerSize, samples, r)
        ensures var bytes := bstream.stream[bstream.headerSize..] + junk;
                var o := DecodeRun(FRESH_READER, 0, CountOf(bytes, 0), ByteBits(bytes[2..]));
                o.Some? && o.value.1 == r && |samples| == CountOf(bstream.stream, bstream.headerSize)
      {
        ChunkDecodes(bstream.stream, bstream.tailCount, bstream.headerSize, samples, r, junk);
      }
      var it := new XORIterator(bstream.stream[bstream.headerSize..] + junk, past);
      var _ := Drain(it);
      if it.err { return None; }
      var lz := if CountOf(bstream.stream, bstream.headerSize) == 0 then NO_WINDOW else it.leadingZero;
      var a := new XORAppender(bstream, Codec(it.timestamp, it.value, it.deltaTimestamp, lz, it.trailingZero));
      return Some(a);
    }
  }
}
