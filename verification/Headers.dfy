/**
  The header stamped on every chunk value: which series the chunk belongs to.
*/
module Headers {
  import opened Words

  const VALUE_HEADER_SIZE := 11

  // Big-endian bytes of a number.
  function BigEndian(v: nat, n: nat): (b: seq<byte>)
    ensures |b| == n
  {
    if n == 0 then [] else BigEndian(v / 256, n - 1) + [v % 256]
  }

  function FromBigEndian(b: seq<byte>): nat
  {
    if b == [] then 0 else FromBigEndian(b[..|b| - 1]) * 256 + b[|b| - 1]
  }

  // A marker byte, the metric id (little endian) and the source id (big endian).
  function ValueHeader(source: uint64, metric: uint16): (h: seq<byte>)
    ensures |h| == VALUE_HEADER_SIZE
  {
    [1, metric % 256, metric / 256] + BigEndian(source, 8)
  }

  // What a reader of the header gets: source id and metric id.
  function HeaderSeries(chunk: seq<byte>): (nat, nat)
    requires |chunk| >= VALUE_HEADER_SIZE
  {
    (FromBigEndian(chunk[3..11]), chunk[1] + 256 * (chunk[2] as int))
  }

  lemma {:induction false} BigEndianRoundTrip(v: nat, n: nat)
    requires v < Pow2(8 * n)
    ensures FromBigEndian(BigEndian(v, n)) == v
  {
    if n > 0 {
      Pow2Byte();
      Pow2Add(8 * (n - 1), 8);
      BigEndianRoundTrip(v / 256, n - 1);
      assert BigEndian(v, n)[..n - 1] == BigEndian(v / 256, n - 1);
    }
  }

  // A number too large for the bytes is cut to its lowest ones.
  lemma {:induction false} BigEndianTruncates(v: nat, n: nat)
    ensures FromBigEndian(BigEndian(v, n)) == v % Pow2(8 * n)
  {
    if n > 0 {
      var p := Pow2(8 * (n - 1));
      Pow2Byte();
      Pow2Add(8 * (n - 1), 8);
      BigEndianTruncates(v / 256, n - 1);
      assert BigEndian(v, n)[..n - 1] == BigEndian(v / 256, n - 1);
      LowBytes(v, p);
    }
  }

  lemma LowBytes(v: nat, p: nat)
    requires p > 0
    ensures v / 256 % p * 256 + v % 256 == v % (p * 256)
  {
    var q, r := v / 256 / p, v / 256 % p;
    assert v == (q * p + r) * 256 + v % 256;
    assert v == q * (p * 256) + (r * 256 + v % 256);
    DivModUnique(v, p * 256, q, r * 256 + v % 256);
  }

  // The ids written into the header are the ids read from it.
  lemma HeaderRoundTrip(source: uint64, metric: uint16, rest: seq<byte>)
    ensures HeaderSeries(ValueHeader(source, metric) + rest) == (source, metric)
  {
    hide BigEndian, FromBigEndian;
    Pow2Word();
    BigEndianRoundTrip(source, 8);
    assert (ValueHeader(source, metric) + rest)[3..11] == BigEndian(source, 8);
  }
}
