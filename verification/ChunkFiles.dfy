/**
  Segment files of chunks: the writer that appends batches and cuts segments, and the reader that
  finds a chunk by its reference. A file is its sequence of bytes.
*/
module ChunkFiles {
  import opened Words
  import opened Headers
  import opened XorCodec
  import opened XorChunks
  import opened TextOrder

  const MAGIC_CHUNK := 0x51705259
  const CHUNK_FORMAT_V1 := 1
  const MAX_VARINT_LEN_32 := 5
  const P32 := 0x1_0000_0000
  const INT_LIMIT := 0x8000_0000

  // A reference: segment number in the upper half, offset in the lower half.
  function RefOf(segment: nat, offset: nat): nat { segment * P32 + offset }

  lemma RefParts(segment: nat, offset: nat)
    requires offset < P32
    ensures RefOf(segment, offset) / P32 == segment && RefOf(segment, offset) % P32 == offset
  {
    DivModUnique(RefOf(segment, offset), P32, segment, offset);
  }

  // Varints ////////////////////////////////////////////////////////////////////////////////////

  lemma SplitGroup(p: nat, rest: nat)
    ensures p * rest == p * (rest % 128) + 128 * p * (rest / 128)
  {
    assert rest == 128 * (rest / 128) + rest % 128;
    assert p * rest == p * (128 * (rest / 128)) + p * (rest % 128);
    assert p * (128 * (rest / 128)) == 128 * p * (rest / 128);
  }

  lemma VarintHead(v: nat, after: seq<byte>)
    ensures var bytes := UVarint(v) + after;
            && |bytes| >= 1 && bytes[0] % 128 == v % 128
            && (bytes[0] < 128 <==> v < 128)
            && (v < 128 ==> |UVarint(v)| == 1)
            && (v >= 128 ==> bytes[1..] == UVarint(v / 128) + after && |UVarint(v)| == 1 + |UVarint(v / 128)|)
  {
  }

  // Decodes a varint of at most `size` bytes; None when it does not end in time.
  method DecodeUnsignedVarint(data: seq<byte>, size: nat, ghost v: nat, ghost after: seq<byte>) returns (r: Option<(nat, nat)>)
    ensures data == UVarint(v) + after && |UVarint(v)| <= size ==> r == Some((v, |UVarint(v)|))
  {
    hide UVarint;
    ghost var good := data == UVarint(v) + after && |UVarint(v)| <= size;
    var value: nat, i: nat, weight: nat := 0, 0, 1;
    ghost var rest: nat := v;
    while i < size && i < |data|
      invariant i <= size && i <= |data|
      invariant good ==> data[i..] == UVarint(rest) + after && i + |UVarint(rest)| == |UVarint(v)| && v == value + weight * rest
    {
      SplitGroup(weight, rest);
      VarintHead(rest, after);
      assert data[i..][0] == data[i] && data[i..][1..] == data[i + 1..];
      value := value + weight * (data[i] as int % 128);
      if data[i] < 128 {
        return Some((value, i + 1));
      }
      weight, i, rest := 128 * weight, i + 1, rest / 128;
    }
    return None;
  }

  // Files //////////////////////////////////////////////////////////////////////////////////////

  // At the offset stand the length of the data, its encoding, the data, and behind it four bytes
  // that read as the checksum, modulo 2^32.
  predicate RecordAt(file: seq<byte>, offset: nat, data: seq<byte>, encoding: byte, check: nat)
  {
    var from := offset + |UVarint(|data|)|;
    && from + 1 + |data| + 4 <= |file|
    && file[offset..from] == UVarint(|data|)
    && file[from] == encoding
    && file[from + 1..from + 1 + |data|] == data
    && FromBigEndian(file[from + 1 + |data|..from + 1 + |data| + 4]) == check % P32
  }

  // Segments only grow at the end, and new ones come after the old ones.
  predicate Grows(files: seq<seq<byte>>, files': seq<seq<byte>>)
  {
    |files| <= |files'| && forall i :: 0 <= i < |files| ==> files[i] <= files'[i]
  }

  lemma RecordStays(file: seq<byte>, file': seq<byte>, offset: nat, data: seq<byte>, encoding: byte, check: nat)
    requires file <= file' && RecordAt(file, offset, data, encoding, check)
    ensures RecordAt(file', offset, data, encoding, check)
  {
    hide UVarint, FromBigEndian;
    var from := offset + |UVarint(|data|)|;
    var end := from + 1 + |data|;
    assert file'[offset..from] == file[offset..from] && file'[from + 1..end] == file[from + 1..end] && file'[end..end + 4] == file[end..end + 4];
  }

  function SegmentHeader(): (h: seq<byte>)
    ensures |h| == 8
  {
    BigEndian(MAGIC_CHUNK, 4) + BigEndian(CHUNK_FORMAT_V1, 4)
  }

  predicate AllHeaded(files: seq<seq<byte>>)
  {
    forall i :: 0 <= i < |files| ==> SegmentHeader() <= files[i]
  }

  // A number in a signed 32-bit variable.
  function AsInt(n: nat): (i: int)
    ensures -INT_LIMIT <= i < INT_LIMIT
  {
    if n % P32 < INT_LIMIT then n % P32 else n % P32 - P32
  }

  // The length of a segment as the reader knows it.
  function Len(file: seq<byte>): int { AsInt(|file|) }

  // The reader's check of a segment.
  predicate Validates(file: seq<byte>)
  {
    Len(file) >= 4 && |file| >= 4 && FromBigEndian(file[..4]) == MAGIC_CHUNK
  }

  lemma HeadedMagic(file: seq<byte>)
    requires SegmentHeader() <= file
    ensures FromBigEndian(file[..4]) == MAGIC_CHUNK && FromBigEndian(file[4..8]) == CHUNK_FORMAT_V1
  {
    assert file[..4] == SegmentHeader()[..4] == BigEndian(MAGIC_CHUNK, 4);
    assert file[4..8] == SegmentHeader()[4..8] == BigEndian(CHUNK_FORMAT_V1, 4);
    Pow2Word();
    hide BigEndian, FromBigEndian;
    BigEndianRoundTrip(MAGIC_CHUNK, 4);
    BigEndianRoundTrip(CHUNK_FORMAT_V1, 4);
  }

  // A segment the writer made passes the reader's check, as long as it has fewer than 2^32 bytes,
  // exactly when it has fewer than 2^31: the reader keeps its length in a signed number.
  lemma HeadedValidates(file: seq<byte>)
    requires SegmentHeader() <= file && |file| < P32
    ensures Validates(file) <==> |file| < INT_LIMIT
    ensures FromBigEndian(file[4..8]) == CHUNK_FORMAT_V1
  {
    HeadedMagic(file);
    hide FromBigEndian, SegmentHeader;
  }

  // A batch starts a new segment.
  predicate Cuts(first: bool, pos: nat, chunkSize: nat, maxLen: nat)
  {
    first || pos > chunkSize || (pos + maxLen > chunkSize && maxLen <= chunkSize)
  }

  // Room the writer reckons for a batch.
  function MaxLen(chunks: seq<(seq<byte>, byte)>): nat
  {
    if chunks == [] then 0 else MaxLen(chunks[..|chunks| - 1]) + 5 + MAX_VARINT_LEN_32 + |chunks[|chunks| - 1].0|
  }

  method BatchLen(chunks: seq<(seq<byte>, byte)>) returns (maxLen: nat)
    ensures maxLen == MaxLen(chunks)
  {
    maxLen := 0;
    var k := 0;
    while k < |chunks|
      invariant k <= |chunks| && maxLen == MaxLen(chunks[..k])
    {
      assert chunks[..k + 1][..k] == chunks[..k];
      maxLen := maxLen + 5 + MAX_VARINT_LEN_32;
      maxLen := maxLen + |chunks[k].0|;
      k := k + 1;
    }
    assert chunks[..k] == chunks;
  }

  lemma RecordBehind(before: seq<byte>, file: seq<byte>, data: seq<byte>, e: byte, check: nat)
    requires file == before + UVarint(|data|) + [e] + data + BigEndian(check, 4)
    ensures RecordAt(file, |before|, data, e, check) && before <= file
    ensures |file| == |before| + |UVarint(|data|)| + |data| + 5
  {
    hide UVarint, BigEndian, FromBigEndian, Pow2;
    Pieces(before, UVarint(|data|), e, data, BigEndian(check, 4));
    BigEndianTruncates(check, 4);
    Pow2Word();
  }

  lemma Pieces(a: seq<byte>, b: seq<byte>, x: byte, c: seq<byte>, d: seq<byte>)
    ensures var all, from := a + b + [x] + c + d, |a| + |b|;
            && a <= all && all[|a|..from] == b && all[from] == x
            && all[from + 1..from + 1 + |c|] == c && all[from + 1 + |c|..from + 1 + |c| + |d|] == d
  {
  }

  // No chunk of the batch has a length of 2^32 or more, and the batch fits an empty segment.
  predicate FitBatch(chunks: seq<(seq<byte>, byte)>, chunkSize: nat)
  {
    MaxLen(chunks) <= chunkSize && forall i :: 0 <= i < |chunks| ==> |chunks[i].0| < P32
  }

  predicate Within(files: seq<seq<byte>>, size: nat)
  {
    forall i :: 0 <= i < |files| ==> |files[i]| <= size
  }

  class ChunkWriter {
    const chunkSize: nat
    const crc: seq<byte> -> nat
    var files: seq<seq<byte>>
    var pos: nat

    ghost predicate Valid()
      reads this
    {
      (files != [] ==> pos == |files[|files| - 1]|) && AllHeaded(files)
    }

    constructor (chunkSize: nat, crc: seq<byte> -> nat)
      ensures Valid() && files == [] && this.chunkSize == chunkSize && this.crc == crc
    {
      this.chunkSize, this.crc := chunkSize, crc;
      files, pos := [], 0;
    }

    // A new segment, with its header.
    method Cut()
      requires Valid()
      modifies this
      ensures Valid() && files == old(files) + [SegmentHeader()]
    {
      files := files + [SegmentHeader()];
      pos := 8;
    }

    method Write(bytes: seq<byte>)
      requires Valid() && files != []
      modifies this
      ensures Valid() && |files| == old(|files|) && files[..|files| - 1] == old(files[..|files| - 1])
      ensures files[|files| - 1] == old(files[|files| - 1]) + bytes
    {
      var n := |files|;
      files := files[..n - 1] + [files[n - 1] + bytes];
      pos := pos + |bytes|;
    }

    method WriteChunk(data: seq<byte>, encoding: byte) returns (ref: nat)
      requires Valid() && files != [] && |data| < U64
      modifies this
      ensures Valid() && |files| == old(|files|) && files[..|files| - 1] == old(files[..|files| - 1]) && Grows(old(files), files)
      ensures ref == RefOf(|files| - 1, old(pos)) && pos == old(pos) + |UVarint(|data|)| + |data| + 5
      ensures FoundAt(files, ref, data, encoding, crc(data))
    {
      hide RefOf, UVarint, BigEndian, RecordAt, SegmentHeader;
      ref := RefOf(|files| - 1, pos);
      ghost var before := files[|files| - 1];
      var len := EncodeUnsignedVarint(|data|);
      Write(len);
      Write([encoding]);
      Write(data);
      Write(BigEndian(crc(data), 4));
      ghost var file := files[|files| - 1];
      RecordBehind(before, file, data, encoding, crc(data));
    }

    // A batch: a new segment first when the current one is over its size or the batch would make
    // it so. Every chunk is found again under its reference, and so is everything written before.
    // A segment is longer than its size and its header only by a batch that fits no segment.
    method WriteChunks(chunks: seq<(seq<byte>, byte)>) returns (refs: seq<nat>)
      requires Valid() && forall i :: 0 <= i < |chunks| ==> |chunks[i].0| < U64
      modifies this
      ensures Valid() && Grows(old(files), files) && |refs| == |chunks|
      ensures |files| == old(|files|) + if Cuts(old(files) == [], old(pos), chunkSize, MaxLen(chunks)) then 1 else 0
      ensures old(files) != [] && old(pos) + MaxLen(chunks) <= chunkSize ==> |files| == old(|files|)
      ensures old(files) != [] && old(pos) > chunkSize ==> |files| == old(|files|) + 1
      ensures FitBatch(chunks, chunkSize) && Within(old(files), chunkSize + 8) ==> Within(files, chunkSize + 8)
      ensures forall i :: 0 <= i < |refs| ==> FoundAt(files, refs[i], chunks[i].0, chunks[i].1, crc(chunks[i].0))
    {
      var maxLen := BatchLen(chunks);
      hide FoundAt, SegmentHeader, MaxLen, AllHeaded;
      if files == [] || pos > chunkSize || (pos + maxLen > chunkSize && maxLen <= chunkSize) {
        Cut();
      }
      assert Grows(old(files), files);
      assert Within(old(files), chunkSize + 8) ==> Within(files[..|files| - 1], chunkSize + 8);
      assert FitBatch(chunks, chunkSize) ==> pos + maxLen <= chunkSize + 8;
      refs := WriteEach(chunks);
    }

    // The chunks of a batch, one behind the other in the current segment.
    method WriteEach(chunks: seq<(seq<byte>, byte)>) returns (refs: seq<nat>)
      requires Valid() && files != [] && forall i :: 0 <= i < |chunks| ==> |chunks[i].0| < U64
      modifies this
      ensures Valid() && Grows(old(files), files) && |refs| == |chunks|
      ensures |files| == old(|files|) && files[..|files| - 1] == old(files[..|files| - 1])
      ensures (forall i :: 0 <= i < |chunks| ==> |chunks[i].0| < P32) ==> |files[|files| - 1]| <= old(pos) + MaxLen(chunks)
      ensures forall i :: 0 <= i < |refs| ==> FoundAt(files, refs[i], chunks[i].0, chunks[i].1, crc(chunks[i].0))
    {
      hide FoundAt, MaxLen, AllHeaded, UVarint;
      refs := [];
      assert MaxLen([]) == 0 by { NothingReckoned(); }
      assert chunks[..0] == [];
      assert Grows(old(files), files);
      hide Grows;
      while |refs| < |chunks|
        invariant Valid() && files != [] && Grows(old(files), files) && |refs| <= |chunks|
        invariant |files| == old(|files|) && files[..|files| - 1] == old(files[..|files| - 1])
        invariant (forall i :: 0 <= i < |chunks| ==> |chunks[i].0| < P32) ==> pos <= old(pos) + MaxLen(chunks[..|refs|])
        invariant forall i :: 0 <= i < |refs| ==> FoundAt(files, refs[i], chunks[i].0, chunks[i].1, crc(chunks[i].0))
      {
        ghost var before := files;
        var (data, encoding) := chunks[|refs|];
        if |data| < P32 { Reckoned(chunks, |refs|); }
        var ref := WriteChunk(data, encoding);
        GrowsOn(old(files), before, files);
        forall i | 0 <= i < |refs| ensures FoundAt(files, refs[i], chunks[i].0, chunks[i].1, crc(chunks[i].0)) {
          FoundStays(before, files, refs[i], chunks[i].0, chunks[i].1, crc(chunks[i].0));
        }
        refs := refs + [ref];
      }
      assert chunks[..|refs|] == chunks;
    }
  }

  lemma NothingReckoned()
    ensures MaxLen([]) == 0
  {
  }

  // What a chunk takes is no more than what was reckoned for it.
  lemma Reckoned(chunks: seq<(seq<byte>, byte)>, k: nat)
    requires k < |chunks| && |chunks[k].0| < P32
    ensures var len := |chunks[k].0|; MaxLen(chunks[..k]) + |UVarint(len)| + len + 5 <= MaxLen(chunks[..k + 1])
  {
    ShortVarint(|chunks[k].0|);
    assert chunks[..k + 1][..k] == chunks[..k];
  }

  // The reference names the segment and the offset at which the record of the data stands.
  ghost predicate FoundAt(files: seq<seq<byte>>, ref: nat, data: seq<byte>, encoding: byte, check: nat)
  {
    exists segment: nat, offset: nat :: ref == RefOf(segment, offset) && segment < |files| && RecordAt(files[segment], offset, data, encoding, check)
  }

  lemma FoundStays(files: seq<seq<byte>>, files': seq<seq<byte>>, ref: nat, data: seq<byte>, encoding: byte, check: nat)
    requires Grows(files, files') && FoundAt(files, ref, data, encoding, check)
    ensures FoundAt(files', ref, data, encoding, check)
  {
    hide RecordAt, RefOf;
    var segment: nat, offset: nat :| ref == RefOf(segment, offset) && segment < |files| && RecordAt(files[segment], offset, data, encoding, check);
    RecordStays(files[segment], files'[segment], offset, data, encoding, check);
  }

  lemma GrowsOn(a: seq<seq<byte>>, b: seq<seq<byte>>, c: seq<seq<byte>>)
    requires Grows(a, b) && Grows(b, c)
    ensures Grows(a, c)
  {
    forall i | 0 <= i < |a| ensures a[i] <= c[i] { assert a[i] <= b[i] <= c[i]; }
  }

  predicate Short(files: seq<seq<byte>>)
  {
    forall i :: 0 <= i < |files| ==> |files[i]| < INT_LIMIT
  }

  // Where a reference leads, and what stands there.
  lemma Locate(files: seq<seq<byte>>, ref: nat, data: seq<byte>, encoding: byte, check: nat) returns (rest: seq<byte>)
    requires FoundAt(files, ref, data, encoding, check) && Short(files)
    ensures var segment, offset := ref / P32, ref % P32;
            && segment < |files| && offset < INT_LIMIT && offset <= |files[segment]|
            && |files[segment]| < INT_LIMIT && files[segment][offset..] == UVarint(|data|) + ([encoding] + data + rest) && |rest| >= 4
  {
    var segment: nat, offset: nat :| ref == RefOf(segment, offset) && segment < |files| && RecordAt(files[segment], offset, data, encoding, check);
    hide UVarint, RecordAt;
    rest := RecordSplits(files[segment], offset, data, encoding, check);
    RefParts(segment, offset);
    hide RefOf;
  }

  lemma RecordSplits(file: seq<byte>, offset: nat, data: seq<byte>, e: byte, check: nat) returns (rest: seq<byte>)
    requires RecordAt(file, offset, data, e, check)
    ensures offset + 6 <= |file| && file[offset..] == UVarint(|data|) + ([e] + data + rest) && |rest| >= 4
  {
    hide UVarint, FromBigEndian;
    var from := offset + |UVarint(|data|)|;
    rest := file[from + 1 + |data|..];
    assert file[offset..] == file[offset..from] + ([file[from]] + file[from + 1..from + 1 + |data|] + rest);
  }

  lemma ShortVarint(n: nat)
    requires n < P32
    ensures |UVarint(n)| <= MAX_VARINT_LEN_32
  {
    Pow2Word();
    Pow2Monotone(32, 35);
    UVarintLength(n, 5);
  }

  // The bytes of a varint are a prefix of the first few bytes read.
  lemma VarintFirst(bytes: seq<byte>, v: nat, tail: seq<byte>, k: nat)
    requires bytes == UVarint(v) + tail && |UVarint(v)| <= k <= |bytes|
    ensures bytes[..k] == UVarint(v) + tail[..k - |UVarint(v)|]
  {
  }

  lemma DataBehind(file: seq<byte>, offset: nat, varint: seq<byte>, e: byte, data: seq<byte>, rest: seq<byte>)
    requires offset <= |file| < INT_LIMIT && file[offset..] == varint + ([e] + data + rest)
    ensures var from := offset + |varint| + 1;
            from + |data| <= |file| && file[from..from + |data|] == data && (offset + |data| + |varint| + 1) % U64 == from + |data|
  {
    var from := offset + |varint| + 1;
    assert file[from..from + |data|] == file[offset..][|varint|..][1..1 + |data|];
    assert file[offset..][|varint|..] == [e] + data + rest;
  }

  // Opens the segments; one that does not pass the check leaves the reader without any.
  method OpenReader(files: seq<seq<byte>>) returns (bs: seq<seq<byte>>, err: bool)
    ensures err <==> exists i :: 0 <= i < |files| && !Validates(files[i])
    ensures bs == if err then [] else files
  {
    hide Validates;
    bs := [];
    for i := 0 to |files|
      invariant bs == files[..i] && forall j :: 0 <= j < i ==> Validates(files[j])
    {
      bs := bs + [files[i]];
      if !Validates(files[i]) {
        return [], true;
      }
    }
    return bs, false;
  }

  // What stands at the offset: the length of the data, its encoding, the data, and more.
  predicate Standing(file: seq<byte>, offset: int, encoding: byte, data: seq<byte>, rest: seq<byte>)
  {
    && 0 <= offset <= |file| < INT_LIMIT && |rest| >= 4
    && file[offset..] == UVarint(|data|) + ([encoding] + data + rest)
  }

  // The varint at the offset, read from at most five bytes.
  method ReadLength(file: seq<byte>, begin: nat, ghost encoding: byte, ghost data: seq<byte>, ghost rest: seq<byte>) returns (o: Option<(nat, nat)>)
    requires begin < |file|
    ensures Standing(file, begin, encoding, data, rest) ==> o == Some((|data|, |UVarint(|data|)|))
  {
    ghost var good := Standing(file, begin, encoding, data, rest);
    ghost var tail := [encoding] + data + rest;
    if good { ShortVarint(|data|); }
    hide UVarint;
    var end := if begin + MAX_VARINT_LEN_32 < |file| then begin + MAX_VARINT_LEN_32 else |file|;
    if good { VarintFirst(file[begin..], |data|, tail, MAX_VARINT_LEN_32); }
    assert good ==> file[begin..end] == file[begin..][..MAX_VARINT_LEN_32];
    o := DecodeUnsignedVarint(file[begin..end], MAX_VARINT_LEN_32, |data|, if good then tail[..MAX_VARINT_LEN_32 - |UVarint(|data|)|] else []);
  }

  // The data at the offset of an open segment. A negative offset reads from the start of the file.
  method ReadData(file: seq<byte>, offset: int, ghost encoding: byte, ghost data: seq<byte>, ghost rest: seq<byte>) returns (r: Option<seq<byte>>)
    requires offset < Len(file)
    ensures Standing(file, offset, encoding, data, rest) ==> r == Some(data)
  {
    ghost var good := Standing(file, offset, encoding, data, rest);
    if good { DataBehind(file, offset, UVarint(|data|), encoding, data, rest); }
    assert good ==> Len(file) == |file|;
    hide Standing, UVarint, AsInt, Len;
    var begin := if offset < 0 then 0 else offset;
    if begin >= |file| {
      return None;
    }
    var o := ReadLength(file, begin, encoding, data, rest);
    if o == None {
      return None;
    }
    var (len, decoded) := o.value;
    if len >= P32 || (offset + len + decoded + 1) % U64 > Len(file) {
      return None;
    }
    var from := if offset + decoded + 1 < 0 then 0 else offset + decoded + 1;
    if from + len > |file| {
      return None;
    }
    return Some(file[from..from + len]);
  }

  // Reads a chunk by its reference from open segments. In segments of fewer than 2^31 bytes a
  // reference handed out for some data reads exactly that data.
  method ReadChunk(bs: seq<seq<byte>>, ref: nat, ghost data: seq<byte>, ghost encoding: byte, ghost check: nat) returns (r: Option<seq<byte>>)
    requires ref < U64
    ensures FoundAt(bs, ref, data, encoding, check) && Short(bs) && |bs| <= INT_LIMIT ==> r == Some(data)
    ensures bs == [] ==> r == None
  {
    var segment, offset := AsInt(ref / P32), AsInt(ref % P32);
    ghost var good := FoundAt(bs, ref, data, encoding, check) && Short(bs) && |bs| <= INT_LIMIT;
    ghost var rest: seq<byte> := [];
    if good {
      rest := Locate(bs, ref, data, encoding, check);
      assert Len(bs[ref / P32]) == |bs[ref / P32]| && segment == ref / P32 && offset == ref % P32;
    }
    hide FoundAt, Short, UVarint, AsInt, Len;
    if segment < 0 || segment >= |bs| || offset >= Len(bs[segment]) {
      return None;
    }
    r := ReadData(bs[segment], offset, encoding, data, rest);
  }

  // Segment names //////////////////////////////////////////////////////////////////////////////

  // The last k decimal digits of n.
  function Digits(n: nat, k: nat): (d: seq<nat>)
    ensures |d| == k
  {
    if k == 0 then [] else Digits(n / 10, k - 1) + [n % 10]
  }

  function Power10(k: nat): nat { if k == 0 then 1 else 10 * Power10(k - 1) }

  // How many digits are printed: those the number has, but at least six.
  function Width(n: nat, k: nat): (w: nat)
    ensures w >= k && n < Power10(w) && (w > k ==> n >= Power10(w - 1))
    decreases n, if n < Power10(k) then 0 else n + 1 - k
  {
    if n < Power10(k) then k else Power10Grows(k); Width(n, k + 1)
  }

  lemma {:induction false} Power10Grows(k: nat)
    ensures Power10(k) > k
  {
    if k > 0 { Power10Grows(k - 1); }
  }

  const NAME_DIGITS := 6
  const MOST_SEGMENTS := 1_000_000

  // The name of segment n.
  function Name(n: nat): seq<nat> { Digits(n, Width(n, NAME_DIGITS)) }

  // Numbers of the same width are in text order when they are in order.
  lemma {:induction false} DigitsOrder(i: nat, j: nat, k: nat)
    requires i < j < Power10(k)
    ensures Less(Digits(i, k), Digits(j, k))
  {
    if k > 0 {
      if i / 10 < j / 10 { DigitsOrder(i / 10, j / 10, k - 1); }
      LessLast(Digits(i / 10, k - 1), Digits(j / 10, k - 1), i % 10, j % 10);
    }
  }

  lemma SixDigits(n: nat)
    ensures Power10(NAME_DIGITS) == MOST_SEGMENTS
    ensures |Name(n)| == NAME_DIGITS <==> n < MOST_SEGMENTS
  {
    assert Power10(3) == 1000 && Power10(6) == 1000 * Power10(3);
  }

  // The names of the first n segments fit the buffer of six digits that they are printed into, and
  // sort as text in the order of the segments, exactly when there are at most 1000000 of them.
  lemma NamesInOrder(n: nat)
    ensures (forall i: nat :: i < n ==> |Name(i)| <= NAME_DIGITS) <==> n <= MOST_SEGMENTS
    ensures n <= MOST_SEGMENTS ==> forall i: nat, j: nat :: i < j < n ==> Less(Name(i), Name(j))
    ensures Less(Name(MOST_SEGMENTS), Name(100_001))
  {
    hide Name;
    forall i: nat | i < n ensures |Name(i)| <= NAME_DIGITS <==> i < MOST_SEGMENTS { SixDigits(i); NameWidth(i); }
    SixDigits(MOST_SEGMENTS);
    NameWidth(MOST_SEGMENTS);
    if n <= MOST_SEGMENTS {
      forall i: nat, j: nat | i < j < n ensures Less(Name(i), Name(j)) { NamesOrdered(i, j); }
    }
    SevenDigits();
  }

  lemma NameWidth(n: nat)
    ensures |Name(n)| >= NAME_DIGITS
  {
  }

  lemma NamesOrdered(i: nat, j: nat)
    requires i < j < MOST_SEGMENTS
    ensures Less(Name(i), Name(j))
  {
    SixDigits(i);
    SixDigits(j);
    DigitsOrder(i, j, NAME_DIGITS);
  }

  lemma SevenDigits()
    ensures Less(Name(MOST_SEGMENTS), Name(100_001))
  {
    SixDigits(100_001);
    assert Power10(7) == 10 * Power10(6);
    assert Name(MOST_SEGMENTS) == Digits(MOST_SEGMENTS, 7);
    assert Digits(1_000_000, 7) == Digits(10_000, 5) + [0] + [0];
    assert Digits(100_001, 6) == Digits(10_000, 5) + [1];
    LessPrefix(Digits(10_000, 5), [0] + [0], [1]);
    assert Digits(10_000, 5) + [0] + [0] == Digits(10_000, 5) + ([0] + [0]);
  }

  // Directories ////////////////////////////////////////////////////////////////////////////////

  // A file with its name.
  type Entry = (seq<nat>, seq<byte>)

  predicate Ordered(dir: seq<Entry>)
  {
    forall i, j :: 0 <= i < j < |dir| ==> Less(dir[i].0, dir[j].0)
  }

  predicate OneEach(dir: seq<Entry>)
  {
    forall i, j :: 0 <= i < j < |dir| ==> dir[i].0 != dir[j].0
  }

  lemma InsertOrdered(a: seq<Entry>, x: Entry, k: nat)
    requires k <= |a| && Ordered(a)
    requires (forall i :: 0 <= i < k ==> Less(a[i].0, x.0)) && (k < |a| ==> Less(x.0, a[k].0))
    ensures Ordered(a[..k] + [x] + a[k..])
  {
    hide Less;
    var b := a[..k] + [x] + a[k..];
    forall i, j | 0 <= i < j < |b| ensures Less(b[i].0, b[j].0) {
      if i == k && j > k + 1 { LessTransitive(x.0, a[k].0, a[j - 1].0); }
      if i < k && j > k { assert j == k || b[j] == a[j - 1]; }
    }
  }

  // The files of a directory, listed in any order, sorted by name.
  method SequenceFiles(dir: seq<Entry>) returns (r: seq<Entry>)
    requires OneEach(dir)
    ensures Ordered(r) && (forall x :: x in r <==> x in dir)
  {
    hide Less, Ordered;
    r := [];
    NoneOrdered();
    for n := 0 to |dir|
      invariant Ordered(r) && (forall x :: x in r <==> x in dir[..n])
    {
      var x, k := dir[n], 0;
      while k < |r| && Less(r[k].0, x.0)
        invariant k <= |r| && forall i :: 0 <= i < k ==> Less(r[i].0, x.0)
      {
        k := k + 1;
      }
      if k < |r| {
        assert r[k] in dir[..n];
        LessTotal(r[k].0, x.0);
      }
      InsertOrdered(r, x, k);
      assert r == r[..k] + r[k..];
      r := r[..k] + [x] + r[k..];
      assert dir[..n + 1] == dir[..n] + [x];
    }
    assert dir[..|dir|] == dir;
  }

  lemma NoneOrdered()
    ensures Ordered([])
  {
  }

  // There is one way to sort.
  lemma {:induction false} SortedOnce(a: seq<Entry>, b: seq<Entry>)
    requires Ordered(a) && Ordered(b) && forall x :: x in a <==> x in b
    ensures a == b
  {
    hide Less;
    if a == [] {
      HasFirst(b);
    } else {
      var n, m := |a| - 1, |b| - 1;
      assert a[n] in b;
      assert b[m] in a;
      var i :| 0 <= i <= n && a[i] == b[m];
      var j :| 0 <= j <= m && b[j] == a[n];
      LessTotal(a[n].0, b[m].0);
      assert a[n] == b[m];
      WithoutLast(a);
      WithoutLast(b);
      forall x ensures x in a[..n] <==> x in b[..m] {
        assert x in a[..n] <==> x in a && x != a[n];
        assert x in b[..m] <==> x in b && x != b[m];
      }
      SortedOnce(a[..n], b[..m]);
      assert a == a[..n] + [a[n]] && b == b[..m] + [b[m]];
    }
  }

  lemma HasFirst(a: seq<Entry>)
    ensures a != [] ==> exists x :: x in a
  {
    if a != [] { assert a[0] in a; }
  }

  lemma WithoutLast(a: seq<Entry>)
    requires Ordered(a) && a != []
    ensures Ordered(a[..|a| - 1]) && forall x :: x in a[..|a| - 1] <==> x in a && x != a[|a| - 1]
  {
    hide Less;
    var n := |a| - 1;
    forall x | x in a[..n] ensures x != a[n] { LessTotal(x.0, x.0); }
  }

  // The segments with their names, in the order in which the directory lists them.
  ghost predicate ListsAll(order: seq<nat>, n: nat)
  {
    && (forall i, j :: 0 <= i < j < |order| ==> order[i] != order[j])
    && (forall k :: k in order <==> 0 <= k < n)
  }

  function Directory(files: seq<seq<byte>>, order: seq<nat>): seq<Entry>
    requires ListsAll(order, |files|)
  {
    seq(|order|, k requires 0 <= k < |order| => assert order[k] in order; (Name(order[k]), files[order[k]]))
  }

  function Named(files: seq<seq<byte>>): seq<Entry>
  {
    seq(|files|, i requires 0 <= i < |files| => (Name(i), files[i]))
  }

  function Bodies(dir: seq<Entry>): seq<seq<byte>>
  {
    seq(|dir|, i requires 0 <= i < |dir| => dir[i].1)
  }

  lemma NamedOrdered(files: seq<seq<byte>>)
    requires |files| <= MOST_SEGMENTS
    ensures Ordered(Named(files))
  {
    hide Name, Less;
    NamesInOrder(|files|);
  }

  lemma ListedOnce(files: seq<seq<byte>>, order: seq<nat>)
    requires ListsAll(order, |files|) && |files| <= MOST_SEGMENTS
    ensures OneEach(Directory(files, order)) && forall x :: x in Directory(files, order) <==> x in Named(files)
  {
    hide Name;
    var dir, all := Directory(files, order), Named(files);
    forall i, j | 0 <= i < j < |dir| ensures dir[i].0 != dir[j].0 {
      assert order[i] in order && order[j] in order;
      NamesDiffer(order[i], order[j]);
    }
    forall x | x in dir ensures x in all {
      var k :| 0 <= k < |dir| && dir[k] == x;
      assert order[k] in order;
      assert all[order[k]] == x;
    }
    forall x | x in all ensures x in dir {
      var i :| 0 <= i < |all| && all[i] == x;
      assert i in order;
      var k :| 0 <= k < |order| && order[k] == i;
      assert dir[k] == x;
    }
  }

  lemma NamesDiffer(i: nat, j: nat)
    requires i < MOST_SEGMENTS && j < MOST_SEGMENTS && i != j
    ensures Name(i) != Name(j)
  {
    hide Name, Less;
    if i < j { NamesOrdered(i, j); } else { NamesOrdered(j, i); }
    LessTotal(Name(i), Name(j));
  }

  // However the directory lists them, the reader gets the segments in the order they were written.
  lemma ListedInOrder(files: seq<seq<byte>>, order: seq<nat>, r: seq<Entry>)
    requires ListsAll(order, |files|) && |files| <= MOST_SEGMENTS
    requires Ordered(r) && forall x :: x in r <==> x in Directory(files, order)
    ensures Bodies(r) == files
  {
    hide Name, Less, Ordered, Directory;
    ListedOnce(files, order);
    NamedOrdered(files);
    SortedOnce(r, Named(files));
  }

  // Batches ////////////////////////////////////////////////////////////////////////////////////

  predicate Writable(batch: seq<(seq<byte>, byte)>) { forall i :: 0 <= i < |batch| ==> |batch[i].0| < U64 }

  // Each reference leads to its chunk, with its encoding and its checksum.
  ghost predicate BatchFound(files: seq<seq<byte>>, refs: seq<nat>, batch: seq<(seq<byte>, byte)>, crc: seq<byte> -> nat)
  {
    |refs| == |batch| && forall i :: 0 <= i < |refs| ==> FoundAt(files, refs[i], batch[i].0, batch[i].1, crc(batch[i].0))
  }

  lemma BatchStays(files: seq<seq<byte>>, files': seq<seq<byte>>, refs: seq<nat>, batch: seq<(seq<byte>, byte)>, crc: seq<byte> -> nat)
    requires Grows(files, files') && BatchFound(files, refs, batch, crc)
    ensures BatchFound(files', refs, batch, crc)
  {
    hide FoundAt, Grows;
    forall i | 0 <= i < |refs| ensures FoundAt(files', refs[i], batch[i].0, batch[i].1, crc(batch[i].0)) {
      FoundStays(files, files', refs[i], batch[i].0, batch[i].1, crc(batch[i].0));
    }
  }

  // All batches, one after the other. Every reference of every batch leads to its data in the end,
  // and segments keep to their size when every batch fits one.
  method WriteAll(w: ChunkWriter, batches: seq<seq<(seq<byte>, byte)>>) returns (refs: seq<seq<nat>>)
    requires w.Valid() && w.files == [] && forall b :: 0 <= b < |batches| ==> Writable(batches[b])
    modifies w
    ensures w.Valid() && |refs| == |batches|
    ensures forall b :: 0 <= b < |batches| ==> BatchFound(w.files, refs[b], batches[b], w.crc)
    ensures (forall b :: 0 <= b < |batches| ==> FitBatch(batches[b], w.chunkSize)) ==> Within(w.files, w.chunkSize + 8)
  {
    hide BatchFound, AllHeaded, FitBatch, Cuts;
    ghost var fit := forall b :: 0 <= b < |batches| ==> FitBatch(batches[b], w.chunkSize);
    refs := [];
    for b := 0 to |batches|
      invariant w.Valid() && |refs| == b
      invariant forall k :: 0 <= k < b ==> BatchFound(w.files, refs[k], batches[k], w.crc)
      invariant fit ==> Within(w.files, w.chunkSize + 8)
    {
      ghost var before := w.files;
      var more := w.WriteChunks(batches[b]);
      FoundBatch(w.files, more, batches[b], w.crc);
      forall k | 0 <= k < b ensures BatchFound(w.files, refs[k], batches[k], w.crc) { BatchStays(before, w.files, refs[k], batches[k], w.crc); }
      refs := refs + [more];
    }
  }

  lemma FoundBatch(files: seq<seq<byte>>, refs: seq<nat>, batch: seq<(seq<byte>, byte)>, crc: seq<byte> -> nat)
    requires |refs| == |batch| && forall i :: 0 <= i < |refs| ==> FoundAt(files, refs[i], batch[i].0, batch[i].1, crc(batch[i].0))
    ensures BatchFound(files, refs, batch, crc)
  {
  }

  // The batch as read back.
  predicate ReadsAs(got: seq<Option<seq<byte>>>, batch: seq<(seq<byte>, byte)>)
  {
    |got| == |batch| && forall i :: 0 <= i < |got| ==> got[i] == Some(batch[i].0)
  }

  predicate ReadsNothing(got: seq<Option<seq<byte>>>) { forall i :: 0 <= i < |got| ==> got[i] == None }

  method ReadBatch(bs: seq<seq<byte>>, refs: seq<nat>, ghost batch: seq<(seq<byte>, byte)>, ghost crc: seq<byte> -> nat) returns (got: seq<Option<seq<byte>>>)
    requires |refs| == |batch|
    ensures |got| == |refs|
    ensures BatchFound(bs, refs, batch, crc) && Short(bs) && |bs| <= INT_LIMIT ==> ReadsAs(got, batch)
    ensures bs == [] ==> ReadsNothing(got)
  {
    ghost var good := BatchFound(bs, refs, batch, crc) && Short(bs) && |bs| <= INT_LIMIT;
    hide FoundAt, Short;
    got := [];
    for i := 0 to |refs|
      invariant |got| == i
      invariant good ==> forall j :: 0 <= j < i ==> got[j] == Some(batch[j].0)
      invariant bs == [] ==> ReadsNothing(got)
    {
      var ref := refs[i];
      if good { RefFits(bs, ref, batch[i].0, batch[i].1, crc(batch[i].0)); }
      if ref >= U64 {
        got := got + [None];
      } else {
        var r := ReadChunk(bs, ref, batch[i].0, batch[i].1, crc(batch[i].0));
        got := got + [r];
      }
    }
  }

  lemma RefFits(files: seq<seq<byte>>, ref: nat, data: seq<byte>, encoding: byte, check: nat)
    requires FoundAt(files, ref, data, encoding, check) && Short(files) && |files| <= INT_LIMIT
    ensures ref < U64
  {
    hide UVarint, FromBigEndian;
    var segment: nat, offset: nat :| ref == RefOf(segment, offset) && segment < |files| && RecordAt(files[segment], offset, data, encoding, check);
    assert segment * P32 <= (INT_LIMIT - 1) * P32;
  }

  // The reader opens what the writer wrote, in segments of fewer than 2^32 bytes, exactly when all of
  // them have fewer than 2^31.
  lemma OpensIfShort(files: seq<seq<byte>>)
    requires AllHeaded(files) && forall i :: 0 <= i < |files| ==> |files[i]| < P32
    ensures (forall i :: 0 <= i < |files| ==> Validates(files[i])) <==> Short(files)
  {
    hide Validates, SegmentHeader;
    forall i | 0 <= i < |files| ensures Validates(files[i]) <==> |files[i]| < INT_LIMIT { HeadedValidates(files[i]); }
  }

  method ReadBatches(bs: seq<seq<byte>>, refs: seq<seq<nat>>, ghost batches: seq<seq<(seq<byte>, byte)>>, ghost crc: seq<byte> -> nat) returns (got: seq<seq<Option<seq<byte>>>>)
    requires |refs| == |batches| && forall b :: 0 <= b < |refs| ==> |refs[b]| == |batches[b]|
    ensures |got| == |refs| && forall b :: 0 <= b < |refs| ==> |got[b]| == |refs[b]|
    ensures forall b :: 0 <= b < |refs| && BatchFound(bs, refs[b], batches[b], crc) && Short(bs) && |bs| <= INT_LIMIT ==> ReadsAs(got[b], batches[b])
    ensures bs == [] ==> forall b :: 0 <= b < |refs| ==> ReadsNothing(got[b])
  {
    hide BatchFound, Short, ReadsAs, ReadsNothing;
    got := [];
    for b := 0 to |refs|
      invariant |got| == b && forall k :: 0 <= k < b ==> |got[k]| == |refs[k]|
      invariant forall k :: 0 <= k < b && BatchFound(bs, refs[k], batches[k], crc) && Short(bs) && |bs| <= INT_LIMIT ==> ReadsAs(got[k], batches[k])
      invariant bs == [] ==> forall k :: 0 <= k < b ==> ReadsNothing(got[k])
    {
      var one := ReadBatch(bs, refs[b], batches[b], crc);
      got := got + [one];
    }
  }

  // From an empty directory: all batches written, the segments listed in any order, sorted by name and
  // opened, and every reference read back. Every chunk stands with its encoding and checksum where its
  // reference says. In at most 1000000 segments of fewer than 2^32 bytes every chunk of every batch
  // comes back exactly when all segments have fewer than 2^31 bytes, as they have when every batch fits
  // one; otherwise none does. With more segments their names no longer fit or sort, as NamesInOrder says.
  method RoundTrip(w: ChunkWriter, batches: seq<seq<(seq<byte>, byte)>>, listing: nat -> seq<nat>)
    returns (refs: seq<seq<nat>>, got: seq<seq<Option<seq<byte>>>>)
    requires w.Valid() && w.files == [] && forall b :: 0 <= b < |batches| ==> Writable(batches[b])
    requires forall n :: ListsAll(listing(n), n)
    modifies w
    ensures |refs| == |batches| && forall b :: 0 <= b < |batches| ==> BatchFound(w.files, refs[b], batches[b], w.crc)
    ensures |w.files| <= MOST_SEGMENTS ==> |got| == |batches| && forall b :: 0 <= b < |got| ==> |got[b]| == |batches[b]|
    ensures |w.files| <= MOST_SEGMENTS && (forall i :: 0 <= i < |w.files| ==> |w.files[i]| < P32) ==>
              if Short(w.files) then forall b :: 0 <= b < |batches| ==> ReadsAs(got[b], batches[b])
              else forall b :: 0 <= b < |batches| ==> ReadsNothing(got[b])
    ensures w.chunkSize + 8 < INT_LIMIT && (forall b :: 0 <= b < |batches| ==> FitBatch(batches[b], w.chunkSize)) ==> Short(w.files)
  {
    hide Validates, BatchFound, ReadsAs, ReadsNothing, Name, ListsAll, Ordered, FitBatch;
    refs := WriteAll(w, batches);
    var files := w.files;
    got := [];
    if |files| > MOST_SEGMENTS {
      return;
    }
    var order := listing(|files|);
    ListedOnce(files, order);
    var sorted := SequenceFiles(Directory(files, order));
    ListedInOrder(files, order, sorted);
    var bs, err := OpenReader(Bodies(sorted));
    if forall i :: 0 <= i < |files| ==> |files[i]| < P32 { OpensIfShort(files); }
    hide Short, AllHeaded;
    forall b | 0 <= b < |batches| ensures |refs[b]| == |batches[b]| { BatchSizes(files, refs[b], batches[b], w.crc); }
    got := ReadBatches(bs, refs, batches, w.crc);
  }

  lemma BatchSizes(files: seq<seq<byte>>, refs: seq<nat>, batch: seq<(seq<byte>, byte)>, crc: seq<byte> -> nat)
    requires BatchFound(files, refs, batch, crc)
    ensures |refs| == |batch|
  {
  }
}
