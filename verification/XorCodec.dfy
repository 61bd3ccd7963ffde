/**
  The XOR chunk code on bit strings: what the appender writes for one sample, what the
  iterator reads back, and the round trip over whole sequences of samples.

  Timestamps are delta-of-delta coded and values are XOR coded, after section 4.1 of
  "Gorilla: A Fast, Scalable, In-Memory Time Series Database" (VLDB 2015). The writer and
  the reader each keep a `Codec` state of their own; `Sync` is the relation between the two.
*/
module XorCodec {
  import opened Words

  // A timestamp and the 64-bit pattern of a double.
  datatype Sample = Sample(t: int64, v: uint64)

  // The fields that the appender and the iterator carry from one sample to the next.
  datatype Codec = Codec(ts: int64, val: uint64, delta: uint64, lead: nat, trail: nat)

  // The leading-zero count of a writer that has no window yet.
  const NO_WINDOW := 0xff

  const FRESH_READER := Codec(0, 0, 0, 0, 0)
  const FRESH_WRITER := Codec(0, 0, 0, NO_WINDOW, 0)

  // Varints //////////////////////////////////////////////////////////////////////

  const MAX_VARINT_LEN_64 := 10

  // Base 128, least significant group first, continuation flag in the top bit.
  function UVarint(v: nat): (bytes: seq<byte>)
    ensures |bytes| >= 1
  {
    if v < 128 then [v] else [v % 128 + 128] + UVarint(v / 128)
  }

  function Not64(x: uint64): uint64 { U64 - 1 - x }

  function ZigZag(v: int64): uint64
  {
    if v < 0 then Not64(ToU64(2 * v)) else ToU64(2 * v)
  }

  function UnZigZag(u: uint64): int64
  {
    ToI64(if u % 2 == 1 then Not64(u / 2) else u / 2)
  }

  function ByteBits(bytes: seq<byte>): (b: seq<bool>)
    ensures |b| == 8 * |bytes|
  {
    if bytes == [] then [] else ByteBits(bytes[..|bytes| - 1]) + Bits(bytes[|bytes| - 1], 8)
  }

  function EncodeVarint(v: int64): (b: seq<bool>)
  {
    ByteBits(UVarint(ZigZag(v)))
  }

  // Reads at most `left` groups. A longer group would be shifted past the 64-bit word.
  function ReadUVarint(bits: seq<bool>, left: nat): (r: Option<(nat, seq<bool>)>)
    ensures r.Some? ==> |r.value.1| < |bits| && r.value.1 == bits[|bits| - |r.value.1|..]
  {
    if left == 0 || |bits| < 8 then None
    else
      var b := Val(bits[..8]);
      if b < 128 then Some((b, bits[8..]))
      else match ReadUVarint(bits[8..], left - 1)
        case None => None
        case Some((high, rest)) => Some((b % 128 + 128 * high, rest))
  }

  function ReadVarint(bits: seq<bool>): (r: Option<(int64, seq<bool>)>)
  {
    match ReadUVarint(bits, MAX_VARINT_LEN_64)
    case None => None
    case Some((u, rest)) => Some((UnZigZag(u % U64), rest))
  }

  // Timestamps ///////////////////////////////////////////////////////////////////

  // The asymmetric ranges of the 14-, 17- and 20-bit codes.
  predicate BitRange(dod: int64, num: nat)
    requires num >= 1
  {
    -(Pow2(num - 1) - 1) <= dod <= Pow2(num - 1)
  }

  function Delta(w: Codec, t: int64): uint64 { ToU64(t - w.ts) }

  function DeltaOfDelta(w: Codec, t: int64): int64 { ToI64(Delta(w, t) - w.delta) }

  function DodBits(dod: int64): (b: seq<bool>)
  {
    if dod == 0 then [false]
    else if BitRange(dod, 14) then Bits(0x02, 2) + Bits(ToU64(dod), 14)
    else if BitRange(dod, 17) then Bits(0x06, 3) + Bits(ToU64(dod), 17)
    else if BitRange(dod, 20) then Bits(0x0e, 4) + Bits(ToU64(dod), 20)
    else Bits(0x0f, 4) + Bits(ToU64(dod), 64)
  }

  function EncodeTime(w: Codec, n: nat, t: int64): (b: seq<bool>)
  {
    if n == 0 then EncodeVarint(t)
    else if n == 1 then EncodeVarint(ToI64(Delta(w, t)))
    else DodBits(DeltaOfDelta(w, t))
  }

  function NextDelta(w: Codec, n: nat, t: int64): uint64
  {
    if n == 0 then 0 else Delta(w, t)
  }

  // The number of leading ones, at most four, that select the width of the code.
  function Prefix(bits: seq<bool>, most: nat): (k: nat)
    ensures k <= most && k <= |bits|
  {
    if most == 0 || bits == [] || !bits[0] then 0 else 1 + Prefix(bits[1..], most - 1)
  }

  function SignExtend(x: nat, size: nat): int
    requires size >= 1
  {
    if x > Pow2(size - 1) then x - Pow2(size) else x
  }

  function ReadNarrow(bits: seq<bool>, size: nat): (r: Option<(int, seq<bool>)>)
    requires size >= 1
  {
    if |bits| < size then None else Some((SignExtend(Val(bits[..size]), size), bits[size..]))
  }

  function ReadDeltaOfDelta(bits: seq<bool>): (r: Option<(int, seq<bool>)>)
  {
    var k := Prefix(bits, 4);
    if k == 4 then
      (if |bits| < 68 then None else Some((ToI64(Val(bits[4..68])), bits[68..])))
    else if |bits| <= k then None
    else if k == 0 then Some((0, bits[1..]))
    else ReadNarrow(bits[k + 1..], if k == 1 then 14 else if k == 2 then 17 else 20)
  }

  // The new timestamp, the new delta and the unread bits.
  function DecodeTime(r: Codec, n: nat, bits: seq<bool>): Option<(int64, uint64, seq<bool>)>
  {
    if n == 0 then
      match ReadVarint(bits)
      case None => None
      case Some((t, rest)) => Some((t, r.delta, rest))
    else if n == 1 then
      match ReadVarint(bits)
      case None => None
      case Some((d, rest)) => Some((ToI64(r.ts + d), ToU64(d), rest))
    else
      match ReadDeltaOfDelta(bits)
      case None => None
      case Some((dod, rest)) =>
        var delta := ToU64(dod + ToI64(r.delta));
        Some((ToI64(r.ts + ToI64(delta)), delta, rest))
  }

  // Values ///////////////////////////////////////////////////////////////////////

  function Min(a: int, b: int): int { if a < b then a else b }

  function Difference(w: Codec, v: uint64): (d: uint64)
  {
    XorIsWord(v, w.val);
    Xor(v, w.val)
  }

  lemma XorIsWord(a: uint64, b: uint64)
    ensures Xor(a, b) < U64
  {
    Pow2Word();
    XorBound(a, b, 64);
  }

  predicate Reuses(w: Codec, d: uint64)
    requires d > 0
  {
    w.lead != NO_WINDOW && Min(Clz(d), 31) >= w.lead && Ctz(d) >= w.trail
  }

  // A window leaves at least one significant bit, or there is none.
  predicate WindowOk(c: Codec)
  {
    c.lead == NO_WINDOW || c.lead + c.trail <= 63
  }

  lemma FreshWindow(d: uint64)
    requires d > 0
    ensures 0 <= Min(Clz(d), 31)
    ensures Min(Clz(d), 31) + Ctz(d) <= 63
  {
    Pow2Word();
    BitLenBound(d, 64);
    CtzBelowBitLen(d);
  }

  // The writer's window after one value.
  function NextWindow(w: Codec, v: uint64): (lt: (nat, nat))
    requires WindowOk(w)
  {
    var d := Difference(w, v);
    if d == 0 || Reuses(w, d) then (w.lead, w.trail) else FreshWindow(d); (Min(Clz(d), 31), Ctz(d))
  }

  function EncodeValue(w: Codec, v: uint64): (b: seq<bool>)
    requires WindowOk(w)
  {
    var d := Difference(w, v);
    if d == 0 then [false]
    else if Reuses(w, d) then [true, false] + Bits(Shr(d, w.trail), 64 - w.lead - w.trail)
    else
      FreshWindow(d);
      var lead, trail := Min(Clz(d), 31), Ctz(d);
      [true, true] + Bits(lead, 5) + Bits(64 - lead - trail, 6) + Bits(Shr(d, trail), 64 - lead - trail)
  }

  function EncodeFirstValue(v: uint64): (b: seq<bool>) { Bits(v, 64) }

  // The new value, the new window and the unread bits.
  function ReadWindowed(val: uint64, lead: nat, trail: nat, bits: seq<bool>): (r: Option<(uint64, nat, nat, seq<bool>)>)
  {
    var size := 64 - lead - trail;
    if size < 0 || |bits| < size then None
    else
      var d := Val(bits[..size]) * Pow2(trail) % U64;
      XorIsWord(val, d);
      Some((Xor(val, d), lead, trail, bits[size..]))
  }

  function DecodeValue(r: Codec, bits: seq<bool>): (o: Option<(uint64, nat, nat, seq<bool>)>)
  {
    if |bits| == 0 then None
    else if !bits[0] then Some((r.val, r.lead, r.trail, bits[1..]))
    else if |bits| == 1 then None
    else if !bits[1] then ReadWindowed(r.val, r.lead, r.trail, bits[2..])
    else if |bits| < 13 then None
    else
      var lead := Val(bits[2..7]);
      var sig := if Val(bits[7..13]) == 0 then 64 else Val(bits[7..13]);
      if lead + sig > 64 then None
      else ReadWindowed(r.val, lead, 64 - lead - sig, bits[13..])
  }

  // One sample ///////////////////////////////////////////////////////////////////

  function EncodeSample(w: Codec, n: nat, s: Sample): (b: seq<bool>)
    requires WindowOk(w)
  {
    EncodeTime(w, n, s.t) + (if n == 0 then EncodeFirstValue(s.v) else EncodeValue(w, s.v))
  }

  function NextWriter(w: Codec, n: nat, s: Sample): (w': Codec)
    requires WindowOk(w)
    ensures WindowOk(w')
    ensures w'.ts == s.t && w'.val == s.v
  {
    var (lead, trail) := if n == 0 then (w.lead, w.trail) else NextWindow(w, s.v);
    NextWindowOk(w, s.v);
    Codec(s.t, s.v, NextDelta(w, n, s.t), lead, trail)
  }

  lemma NextWindowOk(w: Codec, v: uint64)
    requires WindowOk(w)
    ensures var (lead, trail) := NextWindow(w, v);
            if lead == NO_WINDOW then w.lead == NO_WINDOW else lead + trail <= 63
  {
    var d := Difference(w, v);
    if d != 0 && !Reuses(w, d) { FreshWindow(d); }
  }

  function DecodeSample(r: Codec, n: nat, bits: seq<bool>): (o: Option<(Codec, seq<bool>)>)
  {
    match DecodeTime(r, n, bits)
    case None => None
    case Some((t, delta, rest)) =>
      if n == 0 then
        if |rest| < 64 then None
        else
          BitsOfVal(rest[..64]);
          Pow2Word();
          Some((Codec(t, Val(rest[..64]), delta, r.lead, r.trail), rest[64..]))
      else
        match DecodeValue(r, rest)
        case None => None
        case Some((v, lead, trail, rest')) => Some((Codec(t, v, delta, lead, trail), rest'))
  }

  // What keeps writer and reader in step after n samples. A writer without a window never
  // uses the reader's, whatever it is.
  predicate InStep(w: Codec, r: Codec, n: nat)
  {
    && WindowOk(w)
    && r.lead + r.trail <= 63
    && w.ts == r.ts && w.val == r.val && w.delta == r.delta
    && (n == 0 ==> r.delta == 0)
    && (w.lead != NO_WINDOW ==> w.lead == r.lead && w.trail == r.trail)
    && (n == 0 || w.lead == NO_WINDOW ==> r.lead == 0 && r.trail == 0)
  }

  // Round trip of the parts //////////////////////////////////////////////////////

  lemma {:induction false} ByteBitsConcat(a: seq<byte>, b: seq<byte>)
    ensures ByteBits(a + b) == ByteBits(a) + ByteBits(b)
  {
    hide Bits;
    if b == [] {
      assert a + b == a;
    } else {
      assert (a + b)[..|a + b| - 1] == a + b[..|b| - 1];
      ByteBitsConcat(a, b[..|b| - 1]);
    }
  }

  lemma ByteBitsSingle(b: byte)
    ensures ByteBits([b]) == Bits(b, 8)
  {
    assert [b][..0] == [];
  }

  lemma {:induction false} UVarintLength(v: nat, n: nat)
    requires v < Pow2(7 * n) && n >= 1
    ensures |UVarint(v)| <= n
  {
    Pow2Byte();
    if v >= 128 {
      Pow2Add(7 * (n - 1), 7);
      UVarintLength(v / 128, n - 1);
    }
  }

  // A 64-bit number needs between one and ten groups.
  lemma VarintLength(v: int64)
    ensures 8 <= |EncodeVarint(v)| <= 80
  {
    Pow2Word();
    Pow2Monotone(64, 70);
    UVarintLength(ZigZag(v), 10);
  }

  // What one more group contributes.
  lemma ReadGroup(b: byte, left: nat, rest: seq<bool>)
    requires left > 0
    ensures ReadUVarint(Bits(b, 8) + rest, left) ==
            if b < 128 then Some((b, rest))
            else match ReadUVarint(rest, left - 1)
                 case None => None
                 case Some((high, rest')) => Some((b % 128 + 128 * high, rest'))
  {
    hide Bits, Val;
    var bits := Bits(b, 8) + rest;
    assert bits[..8] == Bits(b, 8) && bits[8..] == rest;
    ValOfBits(b, 8);
    Pow2Byte();
  }

  lemma ReadContinued(v: nat, left: nat, tail: seq<bool>, rest: seq<bool>)
    requires left > 0 && ReadUVarint(tail, left - 1) == Some((v / 128, rest))
    ensures ReadUVarint(Bits(v % 128 + 128, 8) + tail, left) == Some((v, rest))
  {
    hide Bits, ReadUVarint;
    ReadGroup(v % 128 + 128, left, tail);
  }

  lemma {:induction false} UVarintRoundTrip(v: nat, left: nat, rest: seq<bool>)
    requires |UVarint(v)| <= left
    ensures ReadUVarint(ByteBits(UVarint(v)) + rest, left) == Some((v, rest))
  {
    if v < 128 {
      ByteBitsSingle(v);
      ReadGroup(v, left, rest);
    } else {
      UVarintRoundTrip(v / 128, left - 1, rest);
      ReadContinued(v, left, ByteBits(UVarint(v / 128)) + rest, rest);
      UVarintBits(v, rest);
    }
  }

  lemma UVarintBits(v: nat, rest: seq<bool>)
    requires v >= 128
    ensures ByteBits(UVarint(v)) + rest == Bits(v % 128 + 128, 8) + (ByteBits(UVarint(v / 128)) + rest)
  {
    ByteBitsConcat([v % 128 + 128], UVarint(v / 128));
    ByteBitsSingle(v % 128 + 128);
  }

  lemma ZigZagRoundTrip(v: int64)
    ensures UnZigZag(ZigZag(v)) == v
  {
    if v < 0 {
      var u: int := ZigZag(v);
      assert ToU64(2 * v) == if 2 * v >= -U64 then 2 * v + U64 else 0;
      assert u == -2 * v - 1;
      assert Not64(u / 2) == U64 + v;
      SignedResidueUnique(ToI64(U64 + v), v);
    }
  }

  lemma VarintRoundTrip(v: int64, rest: seq<bool>)
    ensures ReadVarint(EncodeVarint(v) + rest) == Some((v, rest))
  {
    VarintLength(v);
    var u := ZigZag(v);
    UVarintRoundTrip(u, MAX_VARINT_LEN_64, rest);
    assert u % U64 == u;
    ZigZagRoundTrip(v);
  }

  // No reading of a shorter group sequence gives the same number.
  lemma {:induction false} UVarintShortest(v: nat, b: seq<bool>, left: nat)
    requires ReadUVarint(b, left) == Some((v, []))
    ensures 8 * |UVarint(v)| <= |b|
  {
    if Val(b[..8]) >= 128 {
      var high := ReadUVarint(b[8..], left - 1).value.0;
      UVarintShortest(high, b[8..], left - 1);
      assert v / 128 == high;
    }
  }

  lemma {:induction false} UVarintMonotone(v: nat, u: nat)
    requires v <= u
    ensures |UVarint(v)| <= |UVarint(u)|
  {
    if v >= 128 { UVarintMonotone(v / 128, u / 128); }
  }

  // Numbers of small magnitude become small words: 0, -1, 1, -2, 2, ...
  lemma ZigZagOrder(v: int64)
    ensures ZigZag(v) == if v < 0 then -2 * v - 1 else 2 * v
  {
    assert ToU64(2 * v) == if v < 0 then 2 * v + U64 else 2 * v;
  }

  lemma UnZigZagOnto(u: uint64)
    ensures ZigZag(UnZigZag(u)) == u
  {
    var v := UnZigZag(u);
    ZigZagOrder(v);
    if u % 2 == 1 {
      SignedResidueUnique(v, -1 - u / 2);
    } else {
      SignedResidueUnique(v, u / 2);
    }
  }

  // The varint of a timestamp is the shortest code that the reader turns into it.
  lemma VarintShortest(v: int64, b: seq<bool>)
    requires ReadVarint(b) == Some((v, []))
    ensures |EncodeVarint(v)| <= |b|
  {
    var u := ReadUVarint(b, MAX_VARINT_LEN_64).value.0;
    UVarintShortest(u, b, MAX_VARINT_LEN_64);
    UnZigZagOnto(u % U64);
    UVarintMonotone(u % U64, u);
  }

  lemma NarrowResidue(dod: int64, size: nat)
    requires 1 <= size <= 62 && BitRange(dod, size)
    ensures SignExtend(ToU64(dod) % Pow2(size), size) == dod
  {
    Pow2Word();
    Pow2Add(64 - size, size);
    ResidueOfSigned(dod, Pow2(size), Pow2(64 - size));
  }

  // A narrow code restores every number in its asymmetric range.
  lemma NarrowRoundTrip(dod: int64, size: nat, rest: seq<bool>)
    requires 1 <= size <= 62 && BitRange(dod, size)
    ensures ReadNarrow(Bits(ToU64(dod), size) + rest, size) == Some((dod, rest))
  {
    var b := Bits(ToU64(dod), size);
    assert (b + rest)[..size] == b && (b + rest)[size..] == rest;
    ValOfBits(ToU64(dod), size);
    NarrowResidue(dod, size);
  }

  lemma ResidueOfSigned(x: int64, p: nat, k: nat)
    requires k * p == U64 && -(p as int) < x < p
    ensures ToU64(x) % p == if x < 0 then x + p else x
  {
    WordResidue(x);
    ResidueBelow(x, p, k);
  }

  lemma WordResidue(x: int64)
    ensures ToU64(x) == if x < 0 then x + U64 else x
  {
  }

  lemma ResidueBelow(x: int, p: nat, k: nat)
    requires p > 0 && -(p as int) < x < p
    ensures x < 0 ==> (x + k * p) % p == x + p
    ensures x >= 0 ==> x % p == x
  {
    if x < 0 {
      assert (k - 1) * p == k * p - p;
      DivModUnique(x + k * p, p, k - 1, x + p);
    } else {
      DivModUnique(x, p, 0, x);
    }
  }

  lemma PrefixBits(k: nat, rest: seq<bool>)
    requires k <= 4
    ensures k < 4 ==> Prefix(seq(k, _ => true) + [false] + rest, 4) == k
    ensures Prefix(seq(4, _ => true) + rest, 4) == 4
  {
    PrefixOnes(k, 4, [false] + rest);
    assert seq(k, _ => true) + [false] + rest == seq(k, _ => true) + ([false] + rest);
    PrefixOnes(4, 4, rest);
  }

  lemma {:induction false} PrefixOnes(k: nat, most: nat, rest: seq<bool>)
    requires k <= most
    ensures Prefix(seq(k, _ => true) + rest, most) == k + Prefix(rest, most - k)
  {
    var ones := seq(k, _ => true);
    if k == 0 {
      assert ones + rest == rest;
    } else {
      assert (ones + rest)[1..] == seq(k - 1, _ => true) + rest;
      PrefixOnes(k - 1, most - 1, rest);
    }
  }

  // The four control prefixes are the binary numbers the appender writes.
  lemma ControlBits()
    ensures Bits(0x02, 2) == seq(1, _ => true) + [false]
    ensures Bits(0x06, 3) == seq(2, _ => true) + [false]
    ensures Bits(0x0e, 4) == seq(3, _ => true) + [false]
    ensures Bits(0x0f, 4) == seq(4, _ => true)
  {
    assert Bits(0x02, 2) == [true, false];
    assert Bits(0x06, 3) == Bits(3, 2) + [false] == [true, true, false];
    assert Bits(0x0e, 4) == Bits(7, 3) + [false];
    assert Bits(0x0f, 4) == Bits(7, 3) + [true];
    assert Bits(7, 3) == Bits(3, 2) + [true] == [true, true, true];
  }

  lemma NarrowCode(k: nat, size: nat, dod: int64, rest: seq<bool>)
    requires 1 <= k <= 3 && size == (if k == 1 then 14 else if k == 2 then 17 else 20)
    requires BitRange(dod, size)
    ensures ReadDeltaOfDelta(seq(k, _ => true) + [false] + Bits(ToU64(dod), size) + rest) == Some((dod, rest))
  {
    var code := Bits(ToU64(dod), size) + rest;
    var bits := seq(k, _ => true) + [false] + code;
    assert seq(k, _ => true) + [false] + Bits(ToU64(dod), size) + rest == bits;
    PrefixBits(k, code);
    assert bits[k + 1..] == code;
    NarrowRoundTrip(dod, size, rest);
  }

  lemma WideCode(dod: int64, rest: seq<bool>)
    ensures ReadDeltaOfDelta(seq(4, _ => true) + Bits(ToU64(dod), 64) + rest) == Some((dod, rest))
  {
    var b := Bits(ToU64(dod), 64);
    var bits := seq(4, _ => true) + b + rest;
    assert bits == seq(4, _ => true) + (b + rest);
    PrefixBits(4, b + rest);
    assert bits[4..68] == b && bits[68..] == rest;
    ValOfBits(ToU64(dod), 64);
    Pow2Word();
    SignedResidueUnique(ToI64(ToU64(dod)), dod);
  }

  lemma DodRoundTrip(dod: int64, rest: seq<bool>)
    ensures ReadDeltaOfDelta(DodBits(dod) + rest) == Some((dod, rest))
  {
    ControlBits();
    if dod == 0 {
      PrefixBits(0, rest);
      assert seq(0, _ => true) + [false] + rest == [false] + rest;
    } else if BitRange(dod, 14) {
      NarrowCode(1, 14, dod, rest);
    } else if BitRange(dod, 17) {
      NarrowCode(2, 17, dod, rest);
    } else if BitRange(dod, 20) {
      NarrowCode(3, 20, dod, rest);
    } else {
      WideCode(dod, rest);
    }
  }

  lemma {:induction false} PrefixOf(bits: seq<bool>, most: nat)
    ensures bits[..Prefix(bits, most)] == seq(Prefix(bits, most), _ => true)
    ensures var k := Prefix(bits, most); k < most && k < |bits| ==> !bits[k]
  {
    if most > 0 && bits != [] && bits[0] {
      PrefixOf(bits[1..], most - 1);
      var k := Prefix(bits[1..], most - 1);
      assert bits[..k + 1] == [true] + bits[1..][..k];
    }
  }

  function FieldSize(k: nat): nat
    requires 1 <= k <= 3
  {
    if k == 1 then 14 else if k == 2 then 17 else 20
  }

  lemma NarrowParts(c: seq<bool>, size: nat, dod: int)
    requires size >= 1 && ReadNarrow(c, size) == Some((dod, []))
    ensures |c| == size && dod == SignExtend(Val(c), size)
  {
    hide SignExtend, Val;
    assert |c[size..]| == |c| - size;
    assert c[..|c|] == c;
  }

  // A code that stands alone: its leading ones, its field, and so its length.
  lemma CodeParts(b: seq<bool>, dod: int)
    requires ReadDeltaOfDelta(b) == Some((dod, []))
    ensures var k := Prefix(b, 4);
            && |b| == (if k == 0 then 1 else if k == 4 then 68 else k + 1 + FieldSize(k))
            && (k == 0 ==> dod == 0)
            && (k == 4 ==> dod == ToI64(Val(b[4..])))
            && (1 <= k <= 3 ==> dod == SignExtend(Val(b[k + 1..]), FieldSize(k)))
  {
    hide SignExtend, Val, ToI64, Prefix, ReadNarrow;
    var k := Prefix(b, 4);
    if k == 4 {
      assert |b[68..]| == |b| - 68;
      assert b[4..68] == b[4..];
    } else if k == 0 {
      assert |b[1..]| == |b| - 1;
    } else {
      NarrowParts(b[k + 1..], FieldSize(k), dod);
    }
  }

  lemma CodeFront(a: seq<bool>, b: seq<bool>)
    requires Prefix(a, 4) == Prefix(b, 4) && |a| == |b|
    ensures var k := Prefix(a, 4);
            if k == 4 || k == |a| then a[..k] == b[..k] else a[..k + 1] == b[..k + 1]
  {
    hide Prefix;
    var k := Prefix(a, 4);
    PrefixOf(a, 4);
    PrefixOf(b, 4);
    if k < 4 && k < |a| {
      assert a[..k + 1] == a[..k] + [a[k]] && b[..k + 1] == b[..k] + [b[k]];
    }
  }

  // The numbers a narrow field stands for are exactly those of its asymmetric range.
  lemma NarrowRange(x: nat, y: nat, size: nat)
    requires size >= 1 && x < Pow2(size) && y < Pow2(size)
    ensures -(Pow2(size - 1) - 1) <= SignExtend(x, size) <= Pow2(size - 1)
    ensures SignExtend(x, size) == SignExtend(y, size) ==> x == y
  {
  }

  lemma ValInjective(a: seq<bool>, b: seq<bool>)
    requires |a| == |b| && Val(a) == Val(b)
    ensures a == b
  {
    BitsOfVal(a);
    BitsOfVal(b);
  }

  // Two codes of one length for one number are the same code.
  lemma SameCode(a: seq<bool>, b: seq<bool>, dod: int64)
    requires ReadDeltaOfDelta(a) == ReadDeltaOfDelta(b) == Some((dod, [])) && |a| == |b|
    ensures a == b
  {
    hide SignExtend, Val, Bits, Prefix, ReadDeltaOfDelta, ToI64, Pow2;
    CodeParts(a, dod);
    CodeParts(b, dod);
    var k := Prefix(a, 4);
    CodeFront(a, b);
    var i := if k == 4 then 4 else k + 1;
    assert a == a[..i] + a[i..] && b == b[..i] + b[i..];
    if k > 0 {
      BitsOfVal(a[i..]);
      BitsOfVal(b[i..]);
      if k == 4 {
        WideInjective(Val(a[i..]), Val(b[i..]));
      } else {
        NarrowRange(Val(a[i..]), Val(b[i..]), |a| - i);
      }
      ValInjective(a[i..], b[i..]);
    }
  }

  lemma WideInjective(x: nat, y: nat)
    requires x < Pow2(64) && y < Pow2(64) && ToI64(x) == ToI64(y)
    ensures x == y
  {
    Pow2Word();
  }

  lemma DodLength(dod: int64)
    ensures |DodBits(dod)| == if dod == 0 then 1 else if BitRange(dod, 14) then 16
                              else if BitRange(dod, 17) then 20 else if BitRange(dod, 20) then 24 else 68
  {
    ControlBits();
  }

  // The code of a delta of deltas is the shortest that the reader turns into it, and the
  // only one of that length.
  lemma DodShortest(dod: int64, b: seq<bool>)
    requires ReadDeltaOfDelta(b) == Some((dod, []))
    ensures |DodBits(dod)| <= |b|
    ensures |DodBits(dod)| == |b| ==> DodBits(dod) == b
  {
    hide SignExtend, Val, DodBits, Prefix, ReadDeltaOfDelta, Pow2;
    CodeParts(b, dod);
    DodLength(dod);
    var k := Prefix(b, 4);
    if 1 <= k <= 3 {
      BitsOfVal(b[k + 1..]);
      NarrowRange(Val(b[k + 1..]), 0, |b| - k - 1);
    }
    if |DodBits(dod)| == |b| {
      DodRoundTrip(dod, []);
      assert DodBits(dod) + [] == DodBits(dod);
      SameCode(DodBits(dod), b, dod);
    }
  }

  lemma SecondTimeRoundTrip(w: Codec, r: Codec, t: int64, rest: seq<bool>)
    requires w.ts == r.ts
    ensures DecodeTime(r, 1, EncodeTime(w, 1, t) + rest) == Some((t, Delta(w, t), rest))
  {
    hide ToU64, ToI64, ReadUVarint, EncodeVarint;
    var d := ToI64(Delta(w, t));
    VarintRoundTrip(d, rest);
    ResidueTwice(t - w.ts);
    SumOfDifference(r.ts, t, d);
  }

  lemma LaterTimeRoundTrip(w: Codec, r: Codec, n: nat, t: int64, rest: seq<bool>)
    requires n >= 2 && w.ts == r.ts && w.delta == r.delta
    ensures DecodeTime(r, n, EncodeTime(w, n, t) + rest) == Some((t, Delta(w, t), rest))
  {
    hide ToU64, ToI64, ReadDeltaOfDelta, DodBits;
    var dod := DeltaOfDelta(w, t);
    DodRoundTrip(dod, rest);
    ResidueSum(dod, Delta(w, t) - w.delta, ToI64(r.delta), r.delta);
    ResidueTwice(t - w.ts);
    var delta := ToU64(dod + ToI64(r.delta));
    assert Delta(w, t) - w.delta + r.delta == Delta(w, t);
    assert delta == Delta(w, t);
    SumOfDifference(r.ts, t, ToI64(delta));
  }

  // Timestamps come back although every difference was taken modulo 2^64.
  lemma TimeRoundTrip(w: Codec, r: Codec, n: nat, t: int64, rest: seq<bool>)
    requires InStep(w, r, n)
    ensures DecodeTime(r, n, EncodeTime(w, n, t) + rest) == Some((t, NextDelta(w, n, t), rest))
  {
    if n == 0 {
      VarintRoundTrip(t, rest);
    } else if n == 1 {
      SecondTimeRoundTrip(w, r, t, rest);
    } else {
      LaterTimeRoundTrip(w, r, n, t, rest);
    }
  }

  lemma ResidueTwice(x: int)
    ensures ToU64(ToU64(x)) == ToU64(x)
  {
  }

  lemma ResidueSum(a: int, a': int, b: int, b': int)
    requires ToU64(a) == ToU64(a') && ToU64(b) == ToU64(b')
    ensures ToU64(a + b) == ToU64(a' + b')
  {
  }

  lemma SumOfDifference(from: int64, to: int64, d: int64)
    requires ToU64(d) == ToU64(to - from)
    ensures ToI64(from + d) == to
  {
    ResidueSum(d, to - from, from, from);
    SignedResidueUnique(ToI64(from + d), to);
  }

  // A windowed difference comes back exactly.
  lemma WindowedRoundTrip(val: uint64, v: uint64, lead: nat, trail: nat, rest: seq<bool>)
    requires Xor(v, val) > 0 && Xor(v, val) < U64
    requires lead <= Clz(Xor(v, val)) && trail <= Ctz(Xor(v, val))
    ensures lead + trail <= 63
    ensures ReadWindowed(val, lead, trail, Bits(Shr(Xor(v, val), trail), 64 - lead - trail) + rest) == Some((v, lead, trail, rest))
  {
    hide Bits, Val, Xor, Ctz, BitLen, Pow2;
    var d := Xor(v, val);
    Window(d, lead, trail);
    var size := 64 - lead - trail;
    var b := Bits(Shr(d, trail), size);
    assert (b + rest)[..size] == b && (b + rest)[size..] == rest;
    ValOfBits(Shr(d, trail), size);
    DivModUnique(Shr(d, trail), Pow2(size), 0, Shr(d, trail));
    XorCancel(val, v);
  }

  lemma ValueRoundTrip(w: Codec, r: Codec, n: nat, v: uint64, rest: seq<bool>)
    requires InStep(w, r, n)
    ensures var (lead, trail) := NextWindow(w, v);
            var o := DecodeValue(r, EncodeValue(w, v) + rest);
            && o.Some? && o.value.0 == v && o.value.3 == rest
            && (if lead == NO_WINDOW then o.value.1 == r.lead && o.value.2 == r.trail
                else o.value.1 == lead && o.value.2 == trail)
  {
    var d := Difference(w, v);
    if d == 0 {
      XorZero(v, w.val);
      assert ([false] + rest)[1..] == rest;
    } else if Reuses(w, d) {
      WindowedRoundTrip(r.val, v, w.lead, w.trail, rest);
      var body := Bits(Shr(d, w.trail), 64 - w.lead - w.trail) + rest;
      var bits := EncodeValue(w, v) + rest;
      assert bits == [true, false] + body;
      assert bits[2..] == body;
    } else {
      FreshWindowRoundTrip(w, r, v, rest);
    }
  }

  // The five- and six-bit fields; 64 significant bits are written as 0.
  lemma FieldValues(lead: nat, sig: nat)
    requires lead < 32 && sig <= 64
    ensures Val(Bits(lead, 5)) == lead
    ensures Val(Bits(sig, 6)) == if sig == 64 then 0 else sig
  {
    Pow2Byte();
    ValOfBits(lead, 5);
    ValOfBits(sig, 6);
  }

  lemma ReadFreshWindow(r: Codec, lead: nat, sig: nat, body: seq<bool>)
    requires lead < 32 && 1 <= sig && lead + sig <= 64
    ensures DecodeValue(r, [true, true] + Bits(lead, 5) + Bits(sig, 6) + body)
         == ReadWindowed(r.val, lead, 64 - lead - sig, body)
  {
    hide Bits, Val, ReadWindowed;
    var a, b := Bits(lead, 5), Bits(sig, 6);
    var bits := [true, true] + a + b + body;
    assert bits[2..7] == a && bits[7..13] == b && bits[13..] == body;
    FieldValues(lead, sig);
    assert bits[0] && bits[1] && |bits| >= 13;
  }

  lemma FreshWindowRoundTrip(w: Codec, r: Codec, v: uint64, rest: seq<bool>)
    requires WindowOk(w) && w.val == r.val
    requires Difference(w, v) != 0 && !Reuses(w, Difference(w, v))
    ensures var (lead, trail) := NextWindow(w, v);
            DecodeValue(r, EncodeValue(w, v) + rest) == Some((v, lead, trail, rest))
  {
    hide Bits, Shr, Xor, Clz, Ctz, DecodeValue, ReadWindowed, Reuses;
    var d := Difference(w, v);
    FreshWindow(d);
    var lead, trail := Min(Clz(d), 31), Ctz(d);
    var body := Bits(Shr(d, trail), 64 - lead - trail) + rest;
    assert EncodeValue(w, v) + rest == [true, true] + Bits(lead, 5) + Bits(64 - lead - trail, 6) + body;
    ReadFreshWindow(r, lead, 64 - lead - trail, body);
    WindowedRoundTrip(r.val, v, lead, trail, rest);
  }

  // A difference fits a window when every bit outside the window is zero.
  predicate Fits(d: nat, lead: nat, trail: nat)
    requires lead <= 64
  {
    d < Pow2(64 - lead) && d % Pow2(trail) == 0
  }

  lemma FitsWindow(d: uint64, lead: nat, trail: nat)
    requires d > 0 && lead <= 31
    ensures Fits(d, lead, trail) <==> lead <= Min(Clz(d), 31) && trail <= Ctz(d)
  {
    hide Ctz, BitLen;
    BitLenBound(d, 64 - lead);
    if BitLen(d) <= 64 - lead { Pow2Monotone(BitLen(d), 64 - lead); }
    if trail <= Ctz(d) { CtzDivides(d, trail); }
    if d % Pow2(trail) == 0 { CtzOfMultiple(d, trail); }
  }

  // The window of this value is the tightest there is, with at most 31 leading zeros.
  ghost predicate Tightest(d: nat, lead: nat, trail: nat)
  {
    && lead <= 31 && Fits(d, lead, trail)
    && forall l: nat, t: nat :: l <= 31 && Fits(d, l, t) ==> l <= lead && t <= trail
  }

  lemma FreshIsTightest(d: uint64)
    requires d > 0
    ensures 0 <= Min(Clz(d), 31) && Tightest(d, Min(Clz(d), 31), Ctz(d))
  {
    hide Ctz, Clz, Fits;
    FreshWindow(d);
    FitsWindow(d, Min(Clz(d), 31), Ctz(d));
    forall l: nat, t: nat | l <= 31 && Fits(d, l, t) ensures l <= Min(Clz(d), 31) && t <= Ctz(d) {
      FitsWindow(d, l, t);
    }
  }

  // One bit says that the value is unchanged. Otherwise the window is kept exactly when the
  // difference fits it, and replaced by the tightest one when it does not.
  lemma ValueWindow(w: Codec, v: uint64)
    requires WindowOk(w)
    ensures var (lead, trail) := NextWindow(w, v);
            var d, size := Xor(v, w.val), |EncodeValue(w, v)|;
            if v == w.val then (lead, trail) == (w.lead, w.trail) && size == 1
            else if w.lead <= 31 && Fits(d, w.lead, w.trail) then
              (lead, trail) == (w.lead, w.trail) && size == 2 + 64 - lead - trail
            else Tightest(d, lead, trail) && size == 2 + 5 + 6 + 64 - lead - trail
  {
    hide Ctz, Clz, Fits, Tightest, Bits, Shr;
    var d := Difference(w, v);
    XorZero(v, w.val);
    if d > 0 {
      FreshWindow(d);
      FreshIsTightest(d);
      if w.lead <= 31 { FitsWindow(d, w.lead, w.trail); }
    }
  }

  lemma WordRoundTrip(v: uint64, rest: seq<bool>)
    ensures Val((Bits(v, 64) + rest)[..64]) == v
    ensures (Bits(v, 64) + rest)[64..] == rest
  {
    hide Bits, Val;
    assert (Bits(v, 64) + rest)[..64] == Bits(v, 64);
    ValOfBits(v, 64);
    Pow2Word();
  }

  lemma FirstSampleRoundTrip(w: Codec, r: Codec, s: Sample, rest: seq<bool>)
    requires InStep(w, r, 0)
    ensures DecodeSample(r, 0, EncodeSample(w, 0, s) + rest) == Some((Codec(s.t, s.v, 0, r.lead, r.trail), rest))
  {
    var value := EncodeFirstValue(s.v);
    assert EncodeSample(w, 0, s) + rest == EncodeTime(w, 0, s.t) + (value + rest);
    TimeRoundTrip(w, r, 0, s.t, value + rest);
    WordRoundTrip(s.v, rest);
  }

  // One sample written by a writer in step is read back, and the two stay in step.
  lemma SampleRoundTrip(w: Codec, r: Codec, n: nat, s: Sample, rest: seq<bool>)
    requires InStep(w, r, n)
    ensures var o := DecodeSample(r, n, EncodeSample(w, n, s) + rest);
            && o.Some? && o.value.1 == rest
            && o.value.0.ts == s.t && o.value.0.val == s.v
            && InStep(NextWriter(w, n, s), o.value.0, n + 1)
  {
    hide EncodeTime, DecodeTime, EncodeValue, DecodeValue, NextWindow, ToU64, ToI64;
    if n == 0 {
      FirstSampleRoundTrip(w, r, s, rest);
    } else {
      var value := EncodeValue(w, s.v);
      assert EncodeSample(w, n, s) + rest == EncodeTime(w, n, s.t) + (value + rest);
      TimeRoundTrip(w, r, n, s.t, value + rest);
      ValueRoundTrip(w, r, n, s.v, rest);
      NextWindowOk(w, s.v);
    }
  }

  // Reading does not look past what it consumes //////////////////////////////////

  lemma {:induction false} UVarintStable(bits: seq<bool>, left: nat, junk: seq<bool>)
    ensures var o := ReadUVarint(bits, left);
            o.Some? ==> ReadUVarint(bits + junk, left) == Some((o.value.0, o.value.1 + junk))
  {
    if left > 0 && |bits| >= 8 {
      assert (bits + junk)[..8] == bits[..8];
      assert (bits + junk)[8..] == bits[8..] + junk;
      UVarintStable(bits[8..], left - 1, junk);
    }
  }

  lemma {:induction false} PrefixStable(bits: seq<bool>, most: nat, junk: seq<bool>)
    requires |bits| > Prefix(bits, most) || Prefix(bits, most) == most
    ensures Prefix(bits + junk, most) == Prefix(bits, most)
  {
    if most > 0 && bits[0] {
      assert (bits + junk)[1..] == bits[1..] + junk;
      PrefixStable(bits[1..], most - 1, junk);
    }
  }

  lemma DeltaOfDeltaStable(bits: seq<bool>, junk: seq<bool>)
    ensures var o := ReadDeltaOfDelta(bits);
            o.Some? ==> ReadDeltaOfDelta(bits + junk) == Some((o.value.0, o.value.1 + junk))
  {
    var o, k := ReadDeltaOfDelta(bits), Prefix(bits, 4);
    if o.Some? {
      PrefixStable(bits, 4, junk);
      if k == 4 {
        assert (bits + junk)[4..68] == bits[4..68] && (bits + junk)[68..] == bits[68..] + junk;
      } else if k == 0 {
        assert (bits + junk)[1..] == bits[1..] + junk;
      } else {
        var rest, size := bits[k + 1..], if k == 1 then 14 else if k == 2 then 17 else 20;
        assert (bits + junk)[k + 1..] == rest + junk;
        assert (rest + junk)[..size] == rest[..size] && (rest + junk)[size..] == rest[size..] + junk;
      }
    }
  }

  lemma TimeStable(r: Codec, n: nat, bits: seq<bool>, junk: seq<bool>)
    ensures var o := DecodeTime(r, n, bits);
            o.Some? ==> DecodeTime(r, n, bits + junk) == Some((o.value.0, o.value.1, o.value.2 + junk))
  {
    hide ReadUVarint, ReadDeltaOfDelta, ToU64, ToI64, UnZigZag;
    UVarintStable(bits, MAX_VARINT_LEN_64, junk);
    DeltaOfDeltaStable(bits, junk);
  }

  lemma WindowedStable(val: uint64, lead: nat, trail: nat, bits: seq<bool>, junk: seq<bool>)
    ensures var o := ReadWindowed(val, lead, trail, bits);
            o.Some? ==> ReadWindowed(val, lead, trail, bits + junk) == Some((o.value.0, o.value.1, o.value.2, o.value.3 + junk))
  {
    hide Val, Xor, Pow2;
    var size := 64 - lead - trail;
    if 0 <= size <= |bits| {
      assert (bits + junk)[..size] == bits[..size] && (bits + junk)[size..] == bits[size..] + junk;
    }
  }

  lemma ValueStable(r: Codec, bits: seq<bool>, junk: seq<bool>)
    ensures var o := DecodeValue(r, bits);
            o.Some? ==> DecodeValue(r, bits + junk) == Some((o.value.0, o.value.1, o.value.2, o.value.3 + junk))
  {
    hide Val, ReadWindowed;
    if DecodeValue(r, bits).Some? {
      if !bits[0] {
        assert (bits + junk)[1..] == bits[1..] + junk;
      } else if !bits[1] {
        assert (bits + junk)[2..] == bits[2..] + junk;
        WindowedStable(r.val, r.lead, r.trail, bits[2..], junk);
      } else {
        assert (bits + junk)[2..7] == bits[2..7] && (bits + junk)[7..13] == bits[7..13];
        assert (bits + junk)[13..] == bits[13..] + junk;
        var lead := Val(bits[2..7]);
        var sig := if Val(bits[7..13]) == 0 then 64 else Val(bits[7..13]);
        WindowedStable(r.val, lead, 64 - lead - sig, bits[13..], junk);
      }
    }
  }

  lemma SampleStable(r: Codec, n: nat, bits: seq<bool>, junk: seq<bool>)
    ensures var o := DecodeSample(r, n, bits);
            o.Some? ==> DecodeSample(r, n, bits + junk) == Some((o.value.0, o.value.1 + junk))
  {
    hide Val, DecodeTime, DecodeValue;
    var o := DecodeTime(r, n, bits);
    if o.Some? {
      TimeStable(r, n, bits, junk);
      var rest := o.value.2;
      if n == 0 && |rest| >= 64 {
        assert (rest + junk)[..64] == rest[..64] && (rest + junk)[64..] == rest[64..] + junk;
      }
      ValueStable(r, rest, junk);
    }
  }

  // Whole chunks //////////////////////////////////////////////////////////////////

  // Decodes k samples from a reader that has already read n.
  function DecodeRun(r: Codec, n: nat, k: nat, bits: seq<bool>): (o: Option<(seq<Sample>, Codec, seq<bool>)>)
    ensures o.Some? ==> |o.value.0| == k
    decreases k
  {
    if k == 0 then Some(([], r, bits))
    else match DecodeSample(r, n, bits)
      case None => None
      case Some((r', rest)) =>
        match DecodeRun(r', n + 1, k - 1, rest)
        case None => None
        case Some((samples, r'', rest')) => Some(([Sample(r'.ts, r'.val)] + samples, r'', rest'))
  }

  lemma {:induction false} RunStable(r: Codec, n: nat, k: nat, bits: seq<bool>, junk: seq<bool>)
    ensures var o := DecodeRun(r, n, k, bits);
            o.Some? ==> DecodeRun(r, n, k, bits + junk) == Some((o.value.0, o.value.1, o.value.2 + junk))
    decreases k
  {
    hide DecodeSample;
    if k > 0 {
      SampleStable(r, n, bits, junk);
      var o := DecodeSample(r, n, bits);
      if o.Some? { RunStable(o.value.0, n + 1, k - 1, o.value.1, junk); }
    }
  }

  lemma {:induction false} RunThenSample(r: Codec, n: nat, k: nat, bits: seq<bool>)
    requires DecodeRun(r, n, k, bits).Some?
    ensures var (samples, r', rest) := DecodeRun(r, n, k, bits).value;
            DecodeSample(r', n + k, rest).Some? ==>
              var (r'', rest') := DecodeSample(r', n + k, rest).value;
              DecodeRun(r, n, k + 1, bits) == Some((samples + [Sample(r''.ts, r''.val)], r'', rest'))
    decreases k
  {
    hide DecodeSample;
    if k == 0 {
      var (samples, r', rest) := DecodeRun(r, n, k, bits).value;
      if DecodeSample(r, n, bits).Some? {
        var (r'', rest') := DecodeSample(r, n, bits).value;
        assert DecodeRun(r'', n + 1, 0, rest') == Some(([], r'', rest'));
        assert [Sample(r''.ts, r''.val)] + [] == [] + [Sample(r''.ts, r''.val)];
      }
    } else {
      var (r1, rest1) := DecodeSample(r, n, bits).value;
      RunThenSample(r1, n + 1, k - 1, rest1);
      var (ss, r', rest) := DecodeRun(r1, n + 1, k - 1, rest1).value;
      if DecodeSample(r', n + k, rest).Some? {
        var (r'', rest') := DecodeSample(r', n + k, rest).value;
        assert [Sample(r1.ts, r1.val)] + (ss + [Sample(r''.ts, r''.val)]) == ([Sample(r1.ts, r1.val)] + ss) + [Sample(r''.ts, r''.val)];
      }
    }
  }

  // The payload is the code of exactly these samples, and leaves the reader in state r.
  predicate Holds(payload: seq<bool>, samples: seq<Sample>, r: Codec)
  {
    DecodeRun(FRESH_READER, 0, |samples|, payload) == Some((samples, r, []))
  }

  lemma HoldsNothing()
    ensures Holds([], [], FRESH_READER)
    ensures InStep(FRESH_WRITER, FRESH_READER, 0)
  {
  }

  // Appending to a chunk: the reader state that follows, still in step with the writer.
  lemma HoldsAppend(payload: seq<bool>, samples: seq<Sample>, r: Codec, w: Codec, s: Sample) returns (r': Codec)
    requires Holds(payload, samples, r) && InStep(w, r, |samples|)
    ensures Holds(payload + EncodeSample(w, |samples|, s), samples + [s], r')
    ensures InStep(NextWriter(w, |samples|, s), r', |samples| + 1)
  {
    hide DecodeSample, EncodeSample, NextWriter;
    var n := |samples|;
    var code := EncodeSample(w, n, s);
    SampleRoundTrip(w, r, n, s, []);
    assert code + [] == code;
    RunStable(FRESH_READER, 0, n, payload, code);
    assert [] + code == code;
    RunThenSample(FRESH_READER, 0, n, payload + code);
    r' := DecodeSample(r, n, code).value.0;
  }

  // The writer that `XORChunk::appender` builds from a reader that has read n samples.
  function Reopened(r: Codec, n: nat): Codec
  {
    if n == 0 then r.(lead := NO_WINDOW) else r
  }

  lemma ReopenedInStep(w: Codec, r: Codec, n: nat)
    requires InStep(w, r, n)
    ensures InStep(Reopened(r, n), r, n)
  {
  }

  const COUNT_LIMIT := 0x1_0000

  // A chunk and the appender writing to it, as values. The count is the 16-bit field.
  datatype Chunk = Chunk(payload: seq<bool>, count: nat, w: Codec)

  datatype Event = Append(s: Sample) | Reopen

  const EMPTY_CHUNK := Chunk([], 0, FRESH_WRITER)

  function Apply(c: Chunk, e: Event): (c': Chunk)
    requires WindowOk(c.w)
    ensures WindowOk(c'.w)
  {
    match e
    case Append(s) =>
      Chunk(c.payload + EncodeSample(c.w, c.count, s), (c.count + 1) % COUNT_LIMIT, NextWriter(c.w, c.count, s))
    case Reopen =>
      match DecodeRun(FRESH_READER, 0, c.count, c.payload)
      case None => c
      case Some((_, r, _)) => if WindowOk(Reopened(r, c.count)) then c.(w := Reopened(r, c.count)) else c
  }

  function Play(events: seq<Event>): (c: Chunk)
    ensures WindowOk(c.w)
  {
    if events == [] then EMPTY_CHUNK else Apply(Play(events[..|events| - 1]), events[|events| - 1])
  }

  function Appended(events: seq<Event>): seq<Sample>
  {
    if events == [] then []
    else
      var e := events[|events| - 1];
      Appended(events[..|events| - 1]) + (if e.Append? then [e.s] else [])
  }

  // A chunk value that holds these samples, with its writer in step with the reader state r.
  predicate Faithful(c: Chunk, samples: seq<Sample>, r: Codec)
  {
    Holds(c.payload, samples, r) && c.count == |samples| && InStep(c.w, r, |samples|)
  }

  lemma AppendFaithful(c: Chunk, samples: seq<Sample>, r: Codec, s: Sample) returns (r': Codec)
    requires Faithful(c, samples, r) && |samples| + 1 < COUNT_LIMIT
    ensures Faithful(Apply(c, Append(s)), samples + [s], r')
  {
    hide NextWriter, EncodeSample, DecodeRun;
    r' := HoldsAppend(c.payload, samples, r, c.w, s);
  }

  lemma ReopenFaithful(c: Chunk, samples: seq<Sample>, r: Codec)
    requires Faithful(c, samples, r)
    ensures Faithful(Apply(c, Reopen), samples, r)
  {
    hide NextWriter, EncodeSample, DecodeRun, Reopened;
    ReopenedInStep(c.w, r, |samples|);
  }

  lemma {:induction false} PlayHolds(events: seq<Event>) returns (r: Codec)
    requires |Appended(events)| < COUNT_LIMIT
    ensures Faithful(Play(events), Appended(events), r)
  {
    hide Faithful, Apply;
    if events == [] {
      r := FRESH_READER;
      NothingFaithful();
    } else {
      var before, e := events[..|events| - 1], events[|events| - 1];
      r := PlayHolds(before);
      if e.Append? {
        r := AppendFaithful(Play(before), Appended(before), r, e.s);
      } else {
        ReopenFaithful(Play(before), Appended(before), r);
        assert Appended(events) == Appended(before);
      }
    }
  }

  lemma NothingFaithful()
    ensures Faithful(EMPTY_CHUNK, [], FRESH_READER)
  {
    HoldsNothing();
  }

  // Opening the chunk again restores the appender that wrote it: the timestamp, the value, the
  // delta and the window. Only a writer that never had a window is given the empty one.
  lemma ReopenRestores(events: seq<Event>)
    requires |Appended(events)| < COUNT_LIMIT
    ensures var c := Play(events);
            Play(events + [Reopen]) ==
            if |Appended(events)| == 0 then c.(w := FRESH_WRITER)
            else if c.w.lead == NO_WINDOW then c.(w := c.w.(lead := 0, trail := 0))
            else c
  {
    hide NextWriter, EncodeSample;
    var r := PlayHolds(events);
    assert (events + [Reopen])[..|events|] == events;
    ReopenedInStep(Play(events).w, r, |Appended(events)|);
  }

  lemma {:induction false} PlayCount(events: seq<Event>)
    ensures Play(events).count == |Appended(events)| % COUNT_LIMIT
  {
    hide NextWriter, EncodeSample, Reopened, DecodeRun;
    if events != [] { PlayCount(events[..|events| - 1]); }
  }

  // What an iterator over the chunk yields: the count says how many samples to read.
  function Contents(c: Chunk): Option<seq<Sample>>
  {
    match DecodeRun(FRESH_READER, 0, c.count, c.payload)
    case None => None
    case Some((samples, _, _)) => Some(samples)
  }

  // Every chunk decodes to exactly the samples appended to it, whatever they are and however
  // often its appender was dropped and recovered by decoding, as long as the 16-bit count
  // can hold their number; and only then.
  lemma ChunkRoundTrip(events: seq<Event>)
    ensures Contents(Play(events)) == Some(Appended(events)) <==> |Appended(events)| < COUNT_LIMIT
  {
    if |Appended(events)| < COUNT_LIMIT {
      var r := PlayHolds(events);
    } else {
      PlayCount(events);
    }
  }

  // The length of the code //////////////////////////////////////////////////////////

  lemma TimeCost(w: Codec, n: nat, t: int64)
    ensures n < 2 ==> 8 <= |EncodeTime(w, n, t)| <= 80
    ensures n >= 2 ==> 1 <= |EncodeTime(w, n, t)| <= 68
  {
    VarintLength(t);
    VarintLength(ToI64(Delta(w, t)));
  }

  lemma ValueCost(w: Codec, v: uint64)
    requires WindowOk(w)
    ensures 1 <= |EncodeValue(w, v)| <= 77
  {
    var d := Difference(w, v);
    if d != 0 && !Reuses(w, d) { FreshWindow(d); }
  }

  // The first sample takes 9 to 18 bytes, the second 9 to 157 bits, every later one 2 to 145 bits.
  lemma SampleCost(w: Codec, n: nat, s: Sample)
    requires WindowOk(w)
    ensures n == 0 ==> 72 <= |EncodeSample(w, n, s)| <= 144 && |EncodeSample(w, n, s)| % 8 == 0
    ensures n == 1 ==> 9 <= |EncodeSample(w, n, s)| <= 157
    ensures n >= 2 ==> 2 <= |EncodeSample(w, n, s)| <= 145
  {
    TimeCost(w, n, s.t);
    ValueCost(w, s.v);
  }

  // The least and the greatest number of bits that n samples can take.
  function LeastBits(n: nat): nat { if n == 0 then 0 else if n == 1 then 72 else 81 + 2 * (n - 2) }

  function MostBits(n: nat): nat { if n == 0 then 0 else if n == 1 then 144 else 301 + 145 * (n - 2) }

  // A chunk of n samples, appended with any re-openings in between, takes no fewer and no more.
  lemma {:induction false} ChunkCost(events: seq<Event>)
    requires |Appended(events)| <= COUNT_LIMIT
    ensures LeastBits(|Appended(events)|) <= |Play(events).payload| <= MostBits(|Appended(events)|)
  {
    hide EncodeSample, NextWriter, DecodeRun;
    if events != [] {
      var before, e := events[..|events| - 1], events[|events| - 1];
      ChunkCost(before);
      if e.Append? {
        PlayCount(before);
        SampleCost(Play(before).w, Play(before).count, e.s);
      }
    }
  }
}
