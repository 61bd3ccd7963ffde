/**
  The head chunk of a series: samples are appended speculatively to a chunk of fixed size;
  a chunk that is full is handed to the slab layer, and an append that overflowed is undone
  byte by byte before the chunk is handed over.

  `Head` is the series as a value. `TreeMemSeries` works on bytes and is proved against it.
*/
module HeadSeries {
  import opened Words
  import opened XorCodec
  import opened BitStreams
  import opened XorChunks
  import opened Headers

  // The series as a value ////////////////////////////////////////////////////////////

  // The chunks handed over so far, and the current one with its appender.
  datatype Head = Head(flushed: seq<Chunk>, cur: Chunk)

  const EMPTY_HEAD := Head([], EMPTY_CHUNK)

  // Value header, sample count and packed bits, in bytes.
  function Size(payload: seq<bool>): nat { VALUE_HEADER_SIZE + 2 + (|payload| + 7) / 8 }

  function Step(chunkSize: nat, h: Head, s: Sample): (h': Head)
    requires WindowOk(h.cur.w)
    ensures WindowOk(h'.cur.w)
  {
    var c := Apply(h.cur, Append(s));
    if Size(c.payload) == chunkSize && |c.payload| % 8 >= 6 then Head(h.flushed + [c], EMPTY_CHUNK)
    else if Size(c.payload) > chunkSize then Head(h.flushed + [h.cur], Apply(EMPTY_CHUNK, Append(s)))
    else Head(h.flushed, c)
  }

  function Run(chunkSize: nat, samples: seq<Sample>): (h: Head)
    ensures WindowOk(h.cur.w)
  {
    if samples == [] then EMPTY_HEAD
    else Step(chunkSize, Run(chunkSize, samples[..|samples| - 1]), samples[|samples| - 1])
  }

  // What the handed-over chunks decode to, one after the other.
  function Stored(chunks: seq<Chunk>): Option<seq<Sample>>
  {
    if chunks == [] then Some([])
    else
      var front, last := Stored(chunks[..|chunks| - 1]), Contents(chunks[|chunks| - 1]);
      if front.None? || last.None? then None else Some(front.value + last.value)
  }

  function Recovered(h: Head): Option<seq<Sample>>
  {
    Stored(h.flushed + [h.cur])
  }

  // A current chunk that holds the samples S and leaves a reader in state r.
  predicate Open(c: Chunk, chunkSize: nat, S: seq<Sample>, r: Codec)
  {
    && Faithful(c, S, r)
    && Size(c.payload) <= chunkSize
    && LeastBits(|S|) <= |c.payload|
  }

  // The largest chunk whose sample count always fits in 16 bits.
  const LARGEST_CHUNK := 16406

  lemma OpenCount(c: Chunk, chunkSize: nat, S: seq<Sample>, r: Codec)
    requires Open(c, chunkSize, S, r) && chunkSize <= LARGEST_CHUNK
    ensures |S| + 1 < COUNT_LIMIT
  {
  }

  lemma OpenContents(c: Chunk, chunkSize: nat, S: seq<Sample>, r: Codec)
    requires Open(c, chunkSize, S, r)
    ensures Contents(c) == Some(S)
  {
  }

  // Appending to an open chunk, before its size is looked at.
  lemma OpenAppend(c: Chunk, chunkSize: nat, S: seq<Sample>, r: Codec, s: Sample) returns (r': Codec)
    requires Open(c, chunkSize, S, r) && |S| + 1 < COUNT_LIMIT
    ensures var c' := Apply(c, Append(s));
            Open(c', Size(c'.payload), S + [s], r')
  {
    hide EncodeSample, NextWriter, DecodeRun;
    r' := AppendFaithful(c, S, r, s);
    SampleCost(c.w, |S|, s);
  }

  // A first sample always fits into 31 bytes, and exactly at a byte boundary.
  lemma OpenFirst(chunkSize: nat, s: Sample) returns (r: Codec)
    requires chunkSize >= 31
    ensures var c := Apply(EMPTY_CHUNK, Append(s));
            Open(c, chunkSize, [s], r) && |c.payload| % 8 == 0
  {
    hide EncodeSample, NextWriter, DecodeRun, Faithful;
    NothingFaithful();
    r := AppendFaithful(EMPTY_CHUNK, [], FRESH_READER, s);
    SampleCost(FRESH_WRITER, 0, s);
    assert [] + [s] == [s];
    assert Apply(EMPTY_CHUNK, Append(s)).payload == EncodeSample(FRESH_WRITER, 0, s);
  }

  lemma StoredSnoc(chunks: seq<Chunk>, c: Chunk)
    requires Stored(chunks).Some? && Contents(c).Some?
    ensures Stored(chunks + [c]) == Some(Stored(chunks).value + Contents(c).value)
  {
    assert (chunks + [c])[..|chunks|] == chunks;
  }

  // What was handed over, then what is in the current chunk, is the history.
  predicate Inv(h: Head, chunkSize: nat, history: seq<Sample>, S: seq<Sample>, r: Codec)
  {
    && Open(h.cur, chunkSize, S, r)
    && Stored(h.flushed).Some? && Stored(h.flushed).value + S == history
  }

  lemma StepInvariant(h: Head, chunkSize: nat, history: seq<Sample>, S: seq<Sample>, r: Codec, s: Sample)
    returns (S': seq<Sample>, r': Codec)
    requires 31 <= chunkSize <= LARGEST_CHUNK && Inv(h, chunkSize, history, S, r)
    ensures WindowOk(h.cur.w)
    ensures Inv(Step(chunkSize, h, s), chunkSize, history + [s], S', r')
  {
    hide Contents, Apply, Stored, Open, Size, WindowOk;
    OpenCount(h.cur, chunkSize, S, r);
    OpenWindow(h.cur, chunkSize, S, r);
    var grown := OpenAppend(h.cur, chunkSize, S, r, s);
    var c := Apply(h.cur, Append(s));
    var done := Stored(h.flushed).value;
    assert done + (S + [s]) == history + [s];
    if Size(c.payload) == chunkSize && |c.payload| % 8 >= 6 {
      OpenContents(c, Size(c.payload), S + [s], grown);
      StoredSnoc(h.flushed, c);
      S', r' := [], FRESH_READER;
      OpenNothing(chunkSize);
    } else if Size(c.payload) > chunkSize {
      OpenContents(h.cur, chunkSize, S, r);
      StoredSnoc(h.flushed, h.cur);
      S' := [s];
      r' := OpenFirst(chunkSize, s);
    } else {
      S', r' := S + [s], grown;
      OpenFits(c, Size(c.payload), chunkSize, S + [s], grown);
    }
  }

  lemma OpenFits(c: Chunk, size: nat, chunkSize: nat, S: seq<Sample>, r: Codec)
    requires Open(c, size, S, r) && size <= chunkSize
    ensures Open(c, chunkSize, S, r)
  {
    hide Faithful;
  }

  lemma OpenWindow(c: Chunk, chunkSize: nat, S: seq<Sample>, r: Codec)
    requires Open(c, chunkSize, S, r)
    ensures WindowOk(c.w)
  {
  }

  lemma {:induction false} RunInvariant(chunkSize: nat, samples: seq<Sample>) returns (S: seq<Sample>, r: Codec)
    requires 31 <= chunkSize <= LARGEST_CHUNK
    ensures Inv(Run(chunkSize, samples), chunkSize, samples, S, r)
  {
    hide Inv, Step;
    if samples == [] {
      S, r := [], FRESH_READER;
      InvNothing(chunkSize);
    } else {
      var front := samples[..|samples| - 1];
      S, r := RunInvariant(chunkSize, front);
      assert front + [samples[|samples| - 1]] == samples;
      S, r := StepInvariant(Run(chunkSize, front), chunkSize, front, S, r, samples[|samples| - 1]);
    }
  }

  lemma InvNothing(chunkSize: nat)
    requires chunkSize >= 31
    ensures Inv(EMPTY_HEAD, chunkSize, [], [], FRESH_READER)
  {
    OpenNothing(chunkSize);
  }

  lemma OpenNothing(chunkSize: nat)
    requires chunkSize >= 31
    ensures Open(EMPTY_CHUNK, chunkSize, [], FRESH_READER)
  {
    NothingFaithful();
  }

  lemma RunRecovers(chunkSize: nat, samples: seq<Sample>)
    requires 31 <= chunkSize <= LARGEST_CHUNK
    ensures Recovered(Run(chunkSize, samples)) == Some(samples)
  {
    hide Open, Contents;
    var S, r := RunInvariant(chunkSize, samples);
    var h := Run(chunkSize, samples);
    OpenContents(h.cur, chunkSize, S, r);
    StoredSnoc(h.flushed, h.cur);
  }

  // Where the size limit comes from: with larger chunks the 16-bit count can wrap around ///

  const ORIGIN := Sample(0, 0)

  function Origins(n: nat): (s: seq<Sample>)
    ensures |s| == n
  {
    seq(n, _ => ORIGIN)
  }

  lemma OriginTime(w: Codec, n: nat)
    requires w.ts == 0 && w.delta == 0
    ensures |EncodeTime(w, n, 0)| == if n < 2 then 8 else 1
  {
    hide EncodeVarint, DodBits, DeltaOfDelta, Delta, ToI64;
    OriginVarint();
    OriginDelta(w);
  }

  lemma OriginDelta(w: Codec)
    requires w.ts == 0 && w.delta == 0
    ensures ToI64(Delta(w, 0)) == 0 && DeltaOfDelta(w, 0) == 0 && Delta(w, 0) == 0
    ensures DodBits(0) == [false]
  {
    hide Bits, BitRange;
  }

  lemma OriginVarint()
    ensures |EncodeVarint(0)| == 8
  {
    hide ByteBits;
    assert ZigZag(0) == 0;
    assert UVarint(0) == [0];
  }

  lemma OriginLength(w: Codec, n: nat, s: Sample)
    requires w == FRESH_WRITER && s == ORIGIN
    ensures |EncodeSample(w, n, s)| == LeastBits(n + 1) - LeastBits(n)
  {
    hide EncodeTime, EncodeValue, Bits;
    OriginTime(w, n);
    RepeatedValue(w);
  }

  lemma OriginWriter(w: Codec, n: nat, s: Sample)
    requires w == FRESH_WRITER && s == ORIGIN
    ensures NextWriter(w, n, s) == w
  {
    hide NextWindow, EncodeValue, Delta, DodBits, DeltaOfDelta;
    RepeatedValue(w);
    OriginDelta(w);
  }

  lemma RepeatedValue(w: Codec)
    requires WindowOk(w)
    ensures EncodeValue(w, w.val) == [false] && NextWindow(w, w.val) == (w.lead, w.trail)
  {
    hide Xor, Bits;
    XorZero(w.val, w.val);
  }

  // n zero samples in one chunk that is still open.
  predicate OriginsOnly(h: Head, n: nat)
  {
    h.flushed == [] && |h.cur.payload| == LeastBits(n) && h.cur.count == n % COUNT_LIMIT && h.cur.w == FRESH_WRITER
  }

  lemma OriginStep(chunkSize: nat, h: Head, n: nat)
    requires chunkSize > LARGEST_CHUNK && n < COUNT_LIMIT && OriginsOnly(h, n)
    ensures OriginsOnly(Step(chunkSize, h, ORIGIN), n + 1)
  {
    hide EncodeSample, NextWriter, DecodeRun;
    OriginLength(h.cur.w, n, ORIGIN);
    OriginWriter(h.cur.w, n, ORIGIN);
  }

  lemma {:induction false} OriginRun(chunkSize: nat, n: nat)
    requires chunkSize > LARGEST_CHUNK && n <= COUNT_LIMIT
    ensures OriginsOnly(Run(chunkSize, Origins(n)), n)
  {
    hide Step;
    if n > 0 {
      OriginRun(chunkSize, n - 1);
      assert Origins(n)[..n - 1] == Origins(n - 1);
      OriginStep(chunkSize, Run(chunkSize, Origins(n - 1)), n - 1);
    }
  }

  // A run that loses everything: after 65536 samples the count is 0 again.
  lemma CountWraps(chunkSize: nat, n: nat)
    requires chunkSize > LARGEST_CHUNK && n == COUNT_LIMIT
    ensures Recovered(Run(chunkSize, Origins(n))) == Some([])
  {
    hide Run, Origins;
    var h := Run(chunkSize, Origins(n));
    OriginRun(chunkSize, n);
    assert Stored([]) == Some([]);
    assert Contents(h.cur) == Some([]);
    StoredSnoc(h.flushed, h.cur);
    var nothing: seq<Sample> := [];
    assert nothing + nothing == nothing;
  }

  // The decoded chunks followed by the current one are the whole history of the series, for
  // every run, exactly when the chunk size keeps the count from wrapping.
  lemma HistoryPreserved(chunkSize: nat)
    requires chunkSize >= 31
    ensures (forall samples :: Recovered(Run(chunkSize, samples)) == Some(samples)) <==> chunkSize <= LARGEST_CHUNK
  {
    if chunkSize <= LARGEST_CHUNK {
      forall samples ensures Recovered(Run(chunkSize, samples)) == Some(samples) {
        RunRecovers(chunkSize, samples);
      }
    } else {
      hide Run, Recovered;
      var n := COUNT_LIMIT;
      CountWraps(chunkSize, n);
      assert Recovered(Run(chunkSize, Origins(n))) != Some(Origins(n));
    }
  }

  // When a chunk is handed over //////////////////////////////////////////////////////////

  // The bits that a chunk of this size has left behind the payload, below zero if it is too long.
  function Free(chunkSize: nat, c: Chunk): int { 8 * (chunkSize - VALUE_HEADER_SIZE - 2) - |c.payload| }

  // The sample needs more bits than the chunk has left.
  predicate NoRoom(chunkSize: nat, c: Chunk, s: Sample)
  {
    WindowOk(c.w) && |EncodeSample(c.w, c.count, s)| > Free(chunkSize, c)
  }

  // Chunk i was handed over with one or two bits left, or the sample after its last one had no room.
  ghost predicate HandedFull(chunkSize: nat, chunks: seq<Chunk>, i: nat, samples: seq<Sample>)
    requires i < |chunks|
  {
    && Stored(chunks[..i + 1]).Some?
    && var k, free := |Stored(chunks[..i + 1]).value|, Free(chunkSize, chunks[i]);
       free >= 0 && (1 <= free <= 2 || (k < |samples| && NoRoom(chunkSize, chunks[i], samples[k])))
  }

  lemma FreeBits(chunkSize: nat, c: Chunk)
    ensures Size(c.payload) == chunkSize && |c.payload| % 8 >= 6 <==> 1 <= Free(chunkSize, c) <= 2
    ensures Size(c.payload) > chunkSize <==> Free(chunkSize, c) < 0
  {
  }

  lemma NothingFree(chunkSize: nat)
    requires chunkSize >= 31
    ensures Free(chunkSize, EMPTY_CHUNK) >= 3
  {
  }

  lemma HandedStays(chunkSize: nat, chunks: seq<Chunk>, chunks': seq<Chunk>, i: nat, samples: seq<Sample>, s: Sample)
    requires i < |chunks| && chunks <= chunks' && HandedFull(chunkSize, chunks, i, samples)
    ensures HandedFull(chunkSize, chunks', i, samples + [s])
  {
    hide Stored, NoRoom, Free;
    assert chunks'[..i + 1] == chunks[..i + 1];
  }

  lemma StepFills(h: Head, chunkSize: nat, history: seq<Sample>, S: seq<Sample>, r: Codec, s: Sample)
    requires 31 <= chunkSize <= LARGEST_CHUNK && Inv(h, chunkSize, history, S, r)
    ensures WindowOk(h.cur.w)
    ensures var h' := Step(chunkSize, h, s);
            && (Free(chunkSize, h'.cur) == 0 || Free(chunkSize, h'.cur) >= 3)
            && (h'.flushed == h.flushed || (|h'.flushed| == |h.flushed| + 1 && h.flushed <= h'.flushed && HandedFull(chunkSize, h'.flushed, |h.flushed|, history + [s])))
  {
    hide Contents, Stored, Size, Faithful, EncodeSample, NextWriter, DecodeRun, Free;
    AppendedContents(h, chunkSize, history, S, r, s);
    var c := Apply(h.cur, Append(s));
    FreeBits(chunkSize, h.cur);
    FreeBits(chunkSize, c);
    NothingFree(chunkSize);
    assert Free(chunkSize, c) == Free(chunkSize, h.cur) - |EncodeSample(h.cur.w, h.cur.count, s)| by { FreeAfter(chunkSize, h.cur, s); }
    FirstLeaves(chunkSize, s);
    if Fills(chunkSize, c) {
      StoredSnoc(h.flushed, c);
      assert (h.flushed + [c])[..|h.flushed| + 1] == h.flushed + [c];
    } else if Overflows(chunkSize, c) {
      StoredSnoc(h.flushed, h.cur);
      assert (h.flushed + [h.cur])[..|h.flushed| + 1] == h.flushed + [h.cur];
      assert (history + [s])[|history|] == s;
    }
  }

  lemma FreeAfter(chunkSize: nat, c: Chunk, s: Sample)
    requires WindowOk(c.w)
    ensures Free(chunkSize, Apply(c, Append(s))) == Free(chunkSize, c) - |EncodeSample(c.w, c.count, s)|
  {
    hide EncodeSample, NextWriter;
  }

  lemma FirstLeaves(chunkSize: nat, s: Sample)
    requires chunkSize >= 31
    ensures var free := Free(chunkSize, Apply(EMPTY_CHUNK, Append(s))); free >= 0 && free % 8 == 0
  {
    hide Apply, Faithful;
    var r := OpenFirst(chunkSize, s);
    FreeBits(chunkSize, Apply(EMPTY_CHUNK, Append(s)));
  }

  // In every run: the chunk that is open has at least three bits left, or none at all; and every chunk
  // was handed over with one or two bits left, or because the next sample needed more than were left.
  lemma {:induction false} ChunksFilled(chunkSize: nat, samples: seq<Sample>)
    requires 31 <= chunkSize <= LARGEST_CHUNK
    ensures var h := Run(chunkSize, samples);
            && (Free(chunkSize, h.cur) == 0 || Free(chunkSize, h.cur) >= 3)
            && (forall i :: 0 <= i < |h.flushed| ==> HandedFull(chunkSize, h.flushed, i, samples))
  {
    hide Inv, Step, Free, HandedFull;
    if samples == [] {
      NothingFree(chunkSize);
    } else {
      var n := |samples| - 1;
      var front, s := samples[..n], samples[n];
      var h, h' := Run(chunkSize, front), Run(chunkSize, samples);
      ChunksFilled(chunkSize, front);
      var S, r := RunInvariant(chunkSize, front);
      StepFills(h, chunkSize, front, S, r, s);
      assert front + [s] == samples;
      forall i | 0 <= i < |h.flushed| ensures HandedFull(chunkSize, h'.flushed, i, samples) {
        HandedStays(chunkSize, h.flushed, h'.flushed, i, front, s);
      }
    }
  }

  // The size of the first sample of a chunk.
  function FirstSize(s: Sample): nat { Size(Apply(EMPTY_CHUNK, Append(s)).payload) }

  // A chunk of n bytes holds every first sample exactly when n is at least 31.
  lemma FirstSampleNeeds31(n: nat)
    ensures (forall s :: FirstSize(s) <= n) <==> n >= 31
  {
    LongestFirstSample();
    forall s ensures FirstSize(s) <= 31 { var _ := OpenFirst(31, s); }
    hide FirstSize;
    assert FirstSize(Sample(-I64, 0)) == 31;
  }

  // A first sample with a ten-byte timestamp.
  lemma LongestFirstSample()
    ensures FirstSize(Sample(-I64, 0)) == 31
  {
    hide UVarint, Bits;
    Pow2Word();
    assert ZigZag(-I64) == U64 - 1;
    UVarintAtLeast(U64 - 1, 9);
    VarintLength(-I64);
  }

  lemma {:induction false} UVarintAtLeast(v: nat, n: nat)
    requires v >= Pow2(7 * n)
    ensures |UVarint(v)| >= n + 1
  {
    if n > 0 {
      Pow2Byte();
      Pow2Add(7 * (n - 1), 7);
      UVarintAtLeast(v / 128, n - 1);
    }
  }

  // Listed times ///////////////////////////////////////////////////////////////////////

  // The times a series keeps beside its chunk: what the next chunk is listed from, the time of the
  // last sample, how many samples are counted, and the ranges the chunks were handed over with.
  datatype Book = Book(start: int, last: int, num: int, ranges: seq<(int, int)>)

  const EMPTY_BOOK := Book(0, -I64, 0, [])

  // The two ways in which a sample makes a chunk be handed over.
  predicate Fills(chunkSize: nat, c: Chunk) { Size(c.payload) == chunkSize && |c.payload| % 8 >= 6 }

  predicate Overflows(chunkSize: nat, c: Chunk) { Size(c.payload) > chunkSize }

  // A chunk is handed over before the time of the sample is noted. One that the sample filled is
  // listed up to the sample before, and the sample counts for the next chunk, which is listed from it.
  function BookStep(chunkSize: nat, h: Head, b: Book, s: Sample): Book
    requires WindowOk(h.cur.w)
  {
    var c := Apply(h.cur, Append(s));
    var b' := if Fills(chunkSize, c) || Overflows(chunkSize, c) then b.(ranges := b.ranges + [(b.start, b.last)], num := 0) else b;
    b'.(start := if b'.num + 1 == 1 then s.t else b'.start, last := s.t, num := b'.num + 1)
  }

  function BookRun(chunkSize: nat, samples: seq<Sample>): Book
  {
    if samples == [] then EMPTY_BOOK
    else
      var n := |samples| - 1;
      BookStep(chunkSize, Run(chunkSize, samples[..n]), BookRun(chunkSize, samples[..n]), samples[n])
  }

  predicate Increasing(samples: seq<Sample>) { forall i, j :: 0 <= i < j < |samples| ==> samples[i].t < samples[j].t }

  // Ranges that do not end before they start, each after the one before.
  predicate Disjoint(ranges: seq<(int, int)>)
  {
    && (forall i :: 0 <= i < |ranges| ==> ranges[i].0 <= ranges[i].1)
    && (forall i, j :: 0 <= i < j < |ranges| ==> ranges[i].1 < ranges[j].0)
  }

  // The samples lie in the range, but for a last one at the time from which the next chunk is listed.
  predicate Within(samples: seq<Sample>, range: (int, int), next: int)
  {
    && samples != []
    && (forall k :: 0 <= k < |samples| ==> range.0 <= samples[k].t)
    && (forall k :: 0 <= k < |samples| - 1 ==> samples[k].t <= range.1)
    && (samples[|samples| - 1].t <= range.1 || samples[|samples| - 1].t == next)
  }

  // What chunk i + 1 is listed from.
  function NextStart(b: Book, i: nat): int
    requires i < |b.ranges|
  {
    if i + 1 < |b.ranges| then b.ranges[i + 1].0 else b.start
  }

  ghost predicate ListedOk(chunk: Chunk, range: (int, int), next: int)
  {
    Contents(chunk).Some? && Within(Contents(chunk).value, range, next)
  }

  // The book of a series whose sample times increase.
  ghost predicate BookOk(h: Head, b: Book, history: seq<Sample>)
  {
    && (history == [] ==> b == EMPTY_BOOK && h == EMPTY_HEAD)
    && (history != [] ==> b.num >= 1 && b.start <= b.last == history[|history| - 1].t)
    && Disjoint(b.ranges) && (forall i :: 0 <= i < |b.ranges| ==> b.ranges[i].1 < b.start)
    && Contents(h.cur).Some? && (forall x :: x in Contents(h.cur).value ==> b.start <= x.t <= b.last)
    && |b.ranges| == |h.flushed| && (forall i :: 0 <= i < |b.ranges| ==> ListedOk(h.flushed[i], b.ranges[i], NextStart(b, i)))
  }

  // What the appended sample does to the contents.
  lemma AppendedContents(h: Head, chunkSize: nat, history: seq<Sample>, S: seq<Sample>, r: Codec, s: Sample)
    requires 31 <= chunkSize <= LARGEST_CHUNK && Inv(h, chunkSize, history, S, r)
    ensures WindowOk(h.cur.w)
    ensures var c := Apply(h.cur, Append(s));
            && Contents(h.cur) == Some(S) && Contents(c) == Some(S + [s]) && Contents(Apply(EMPTY_CHUNK, Append(s))) == Some([s])
            && (Fills(chunkSize, c) || Overflows(chunkSize, c) ==> S != []) && Contents(EMPTY_CHUNK) == Some([])
  {
    OpenCount(h.cur, chunkSize, S, r);
    hide Contents, Apply, Faithful, EncodeSample, NextWriter, DecodeRun;
    OpenWindow(h.cur, chunkSize, S, r);
    OpenContents(h.cur, chunkSize, S, r);
    var grown := OpenAppend(h.cur, chunkSize, S, r, s);
    OpenContents(Apply(h.cur, Append(s)), Size(Apply(h.cur, Append(s)).payload), S + [s], grown);
    var first := OpenFirst(chunkSize, s);
    OpenContents(Apply(EMPTY_CHUNK, Append(s)), chunkSize, [s], first);
    OpenNothing(chunkSize);
    OpenContents(EMPTY_CHUNK, chunkSize, [], FRESH_READER);
    if S == [] { FirstNeverFills(h.cur, chunkSize, r, s); }
  }

  lemma FirstNeverFills(c: Chunk, chunkSize: nat, r: Codec, s: Sample)
    requires chunkSize >= 31 && Open(c, chunkSize, [], r)
    ensures !Fills(chunkSize, Apply(c, Append(s))) && !Overflows(chunkSize, Apply(c, Append(s)))
  {
    hide EncodeSample, NextWriter, DecodeRun;
    SampleCost(c.w, 0, s);
    EmptyPayload(c, chunkSize, r);
  }

  lemma EmptyPayload(c: Chunk, chunkSize: nat, r: Codec)
    requires Open(c, chunkSize, [], r)
    ensures c.payload == [] && c.count == 0
  {
  }

  // A chunk of the samples S, and of s too if s filled it, listed under the book's range.
  lemma HandedListed(gone: Chunk, S: seq<Sample>, s: Sample, b: Book)
    requires S != [] && (Contents(gone) == Some(S) || Contents(gone) == Some(S + [s]))
    requires (forall x :: x in S ==> b.start <= x.t <= b.last) && b.last < s.t
    ensures ListedOk(gone, (b.start, b.last), s.t)
  {
    hide Contents;
    var T := Contents(gone).value;
    forall k | 0 <= k < |S| ensures T[k] == S[k] && b.start <= S[k].t <= b.last { assert S[k] in S; }
    assert b.start <= S[0].t <= b.last;
    if T == S { assert T[|T| - 1] == S[|S| - 1]; } else { assert T[|T| - 1] == s; }
  }

  // A book after a chunk was handed over.
  lemma HandedBook(h: Head, b: Book, history: seq<Sample>, S: seq<Sample>, s: Sample, gone: Chunk, cur: Chunk)
    requires BookOk(h, b, history) && history != [] && history[|history| - 1].t < s.t && ListedOk(gone, (b.start, b.last), s.t)
    requires Contents(cur) == Some([]) || Contents(cur) == Some([s])
    ensures BookOk(Head(h.flushed + [gone], cur), Book(s.t, s.t, 1, b.ranges + [(b.start, b.last)]), history + [s])
  {
    hide Contents, ListedOk;
    var h', b' := Head(h.flushed + [gone], cur), Book(s.t, s.t, 1, b.ranges + [(b.start, b.last)]);
    forall i | 0 <= i < |b'.ranges| ensures ListedOk(h'.flushed[i], b'.ranges[i], NextStart(b', i)) {
      if i < |b.ranges| { assert ListedOk(h.flushed[i], b.ranges[i], NextStart(b, i)); }
    }
  }

  lemma GrownBook(h: Head, b: Book, history: seq<Sample>, S: seq<Sample>, s: Sample, cur: Chunk)
    requires BookOk(h, b, history) && (history != [] ==> history[|history| - 1].t < s.t)
    requires Contents(h.cur) == Some(S) && Contents(cur) == Some(S + [s]) && Contents(EMPTY_CHUNK) == Some([])
    ensures BookOk(Head(h.flushed, cur), b.(start := if b.num + 1 == 1 then s.t else b.start, last := s.t, num := b.num + 1), history + [s])
  {
    hide Contents, ListedOk;
    var h', b' := Head(h.flushed, cur), b.(start := if b.num + 1 == 1 then s.t else b.start, last := s.t, num := b.num + 1);
    forall i | 0 <= i < |b'.ranges| ensures ListedOk(h'.flushed[i], b'.ranges[i], NextStart(b', i)) {
      assert ListedOk(h.flushed[i], b.ranges[i], NextStart(b, i));
    }
  }

  // The next sample's step keeps the book.
  lemma BookStepOk(h: Head, b: Book, chunkSize: nat, history: seq<Sample>, S: seq<Sample>, r: Codec, s: Sample)
    requires 31 <= chunkSize <= LARGEST_CHUNK && Inv(h, chunkSize, history, S, r) && BookOk(h, b, history)
    requires history != [] ==> history[|history| - 1].t < s.t
    ensures WindowOk(h.cur.w) && BookOk(Step(chunkSize, h, s), BookStep(chunkSize, h, b, s), history + [s])
  {
    hide Contents, Apply, Inv, Open, Size, BookOk, ListedOk;
    AppendedContents(h, chunkSize, history, S, r, s);
    BookKeepsSamples(h, b, history, S);
    var c := Apply(h.cur, Append(s));
    if Fills(chunkSize, c) || Overflows(chunkSize, c) {
      var gone, cur := if Fills(chunkSize, c) then c else h.cur, if Fills(chunkSize, c) then EMPTY_CHUNK else Apply(EMPTY_CHUNK, Append(s));
      HandedListed(gone, S, s, b);
      HandedBook(h, b, history, S, s, gone, cur);
    } else {
      GrownBook(h, b, history, S, s, c);
    }
  }

  lemma BookKeepsSamples(h: Head, b: Book, history: seq<Sample>, S: seq<Sample>)
    requires BookOk(h, b, history) && Contents(h.cur) == Some(S) && Contents(EMPTY_CHUNK) == Some([])
    ensures (forall x :: x in S ==> b.start <= x.t <= b.last) && (S != [] ==> history != [])
    ensures history != [] ==> b.last == history[|history| - 1].t
  {
    hide Contents, ListedOk;
  }

  // In every run of appends with increasing times: the chunks handed over are listed under ranges that
  // follow each other without overlap, and every sample lies in the range of its chunk, but for the
  // last of a chunk that it filled, which is at the very time from which the next chunk is listed.
  lemma {:induction false} RangesFollow(chunkSize: nat, samples: seq<Sample>)
    requires 31 <= chunkSize <= LARGEST_CHUNK && Increasing(samples)
    ensures BookOk(Run(chunkSize, samples), BookRun(chunkSize, samples), samples)
  {
    hide BookOk, Inv, Step, BookStep;
    if samples == [] {
      NothingBooked(chunkSize);
    } else {
      var n := |samples| - 1;
      var front := samples[..n];
      RangesFollow(chunkSize, front);
      var S, r := RunInvariant(chunkSize, front);
      BookStepOk(Run(chunkSize, front), BookRun(chunkSize, front), chunkSize, front, S, r, samples[n]);
      assert front + [samples[n]] == samples;
    }
  }

  // Times that are not negative are listed under times that are not.
  lemma {:induction false} RangesNatural(chunkSize: nat, samples: seq<Sample>)
    requires forall i :: 0 <= i < |samples| ==> samples[i].t >= 0
    ensures var b := BookRun(chunkSize, samples); b.start >= 0 && forall i :: 0 <= i < |b.ranges| ==> b.ranges[i].0 >= 0
  {
    hide Run, Fills, Overflows, Apply;
    if samples != [] { RangesNatural(chunkSize, samples[..|samples| - 1]); }
  }

  lemma NothingBooked(chunkSize: nat)
    requires chunkSize >= 31
    ensures BookOk(EMPTY_HEAD, EMPTY_BOOK, [])
  {
    OpenNothing(chunkSize);
    OpenContents(EMPTY_CHUNK, chunkSize, [], FRESH_READER);
  }

  // The series on bytes ///////////////////////////////////////////////////////////////

  // Stored bytes that hold the chunk c, padded to the fixed size.
  predicate Represents(bytes: seq<byte>, c: Chunk, chunkSize: nat)
  {
    && |bytes| == chunkSize && chunkSize >= VALUE_HEADER_SIZE + 2
    && CountOf(bytes, VALUE_HEADER_SIZE) == c.count
    && c.payload <= ByteBits(bytes[VALUE_HEADER_SIZE + 2..])
  }

  lemma RepresentsDecodes(bytes: seq<byte>, c: Chunk, chunkSize: nat)
    requires Represents(bytes, c, chunkSize) && Contents(c).Some?
    ensures Decoded(bytes[VALUE_HEADER_SIZE..]) == Contents(c)
  {
    hide ByteBits, DecodeRun;
    var b := bytes[VALUE_HEADER_SIZE..];
    assert b[2..] == bytes[VALUE_HEADER_SIZE + 2..];
    var bits := ByteBits(b[2..]);
    assert bits == c.payload + bits[|c.payload|..];
    RunStable(FRESH_READER, 0, c.count, c.payload, bits[|c.payload|..]);
  }

  // What a reader gets out of the stored bytes.
  function StoredBytes(chunks: seq<seq<byte>>): Option<seq<Sample>>
    requires forall i :: 0 <= i < |chunks| ==> |chunks[i]| >= VALUE_HEADER_SIZE + 2
  {
    if chunks == [] then Some([])
    else
      var front, last := StoredBytes(chunks[..|chunks| - 1]), Decoded(chunks[|chunks| - 1][VALUE_HEADER_SIZE..]);
      if front.None? || last.None? then None else Some(front.value + last.value)
  }

  lemma {:induction false} StoredBytesAgree(chunks: seq<seq<byte>>, flushed: seq<Chunk>, chunkSize: nat)
    requires |chunks| == |flushed|
    requires forall i :: 0 <= i < |chunks| ==> |chunks[i]| >= VALUE_HEADER_SIZE + 2
    requires forall i :: 0 <= i < |chunks| ==> Represents(chunks[i], flushed[i], chunkSize)
    requires Stored(flushed).Some?
    ensures StoredBytes(chunks) == Stored(flushed)
  {
    hide Contents, Decoded;
    if chunks != [] {
      var k := |chunks| - 1;
      StoredBytesAgree(chunks[..k], flushed[..k], chunkSize);
      RepresentsDecodes(chunks[k], flushed[k], chunkSize);
    }
  }

  // The stream of a chunk has as many bytes as its payload needs.
  lemma PayloadSize(stream: seq<byte>, tail: nat)
    requires Shaped(stream, tail, VALUE_HEADER_SIZE)
    ensures Size(PayloadOf(stream, tail, VALUE_HEADER_SIZE)) == |stream|
    ensures |PayloadOf(stream, tail, VALUE_HEADER_SIZE)| % 8 == tail
  {
    hide ByteBits, Bits, Starts;
  }

  // Rolling back: the bytes before the append, followed by zeros.
  lemma RollbackRepresents(before: seq<byte>, tail: nat, after: seq<byte>, c: Chunk, chunkSize: nat)
    requires Shaped(before, tail, VALUE_HEADER_SIZE) && |before| <= chunkSize < |after|
    requires after[..|before|] == before && forall i :: |before| <= i < |after| ==> after[i] == 0
    requires c.payload == PayloadOf(before, tail, VALUE_HEADER_SIZE) && c.count == CountOf(before, VALUE_HEADER_SIZE)
    ensures Represents(after[..chunkSize], c, chunkSize)
  {
    hide ByteBits, PayloadOf, Shaped;
    ShapedSize(before, tail);
    var zeros: seq<byte> := seq(chunkSize - |before|, _ => 0);
    var k := VALUE_HEADER_SIZE + 2;
    assert after[..chunkSize][k..] == before[k..] + zeros;
    PayloadAsBytes(before, tail, VALUE_HEADER_SIZE, zeros);
    assert forall i :: 0 <= i < |before| ==> after[i] == after[..|before|][i] == before[i];
  }

  lemma FullRepresents(stream: seq<byte>, tail: nat, c: Chunk)
    requires Shaped(stream, tail, VALUE_HEADER_SIZE)
    requires c.payload == PayloadOf(stream, tail, VALUE_HEADER_SIZE) && c.count == CountOf(stream, VALUE_HEADER_SIZE)
    ensures Represents(stream[..|stream|], c, |stream|)
  {
    hide ByteBits, PayloadOf, Shaped;
    ShapedSize(stream, tail);
    PayloadAsBytes(stream, tail, VALUE_HEADER_SIZE, []);
    assert stream[VALUE_HEADER_SIZE + 2..] + [] == stream[..|stream|][VALUE_HEADER_SIZE + 2..];
  }

  method FreshAppender(chunk: XORChunk) returns (a: XORAppender)
    requires chunk.bstream.headerSize == VALUE_HEADER_SIZE
    requires ChunkOf(chunk.bstream.stream, chunk.bstream.tailCount, VALUE_HEADER_SIZE, [], FRESH_READER)
    ensures fresh(a) && a.bstream == chunk.bstream && a.Valid()
    ensures a.Payload() == [] && a.Count() == 0 && a.State() == FRESH_WRITER
  {
    // The memory behind the vector, whatever it holds.
    assert |seq(VALUE_HEADER_SIZE, _ => 0 as byte)| == VALUE_HEADER_SIZE;
    var junk: seq<byte> :| |junk| == VALUE_HEADER_SIZE;
    var past: byte := *;
    var o := chunk.Appender(junk, past);
    a := o.value;
  }

  class TreeMemSeries {
    const chunkSize: nat
    const sourceId: uint64
    const metricId: uint16
    var chunk: XORChunk
    var appender: XORAppender
    // The chunks handed to the slab layer, oldest first.
    var handed: seq<seq<byte>>
    // What the next chunk is listed from, the time of the last sample, the samples counted, and the
    // ranges the chunks were handed over with.
    var tupleSt: int
    var maxTime: int
    var numSamples: int
    var ranges: seq<(int, int)>
    ghost var history: seq<Sample>

    ghost function View(): Chunk
      requires appender.Valid()
      reads this, appender, appender.bstream
    {
      Chunk(appender.Payload(), appender.Count(), appender.State())
    }

    ghost predicate Linked()
      reads this, chunk, appender, appender.bstream
    {
      && appender.bstream == chunk.bstream
      && chunk.bstream.headerSize == VALUE_HEADER_SIZE
      && appender.Valid()
      && chunk.bstream.end == |chunk.bstream.stream|
    }

    ghost predicate Agrees(h: Head)
      reads this, chunk, appender, appender.bstream
    {
      && Linked()
      && View() == h.cur
      && |handed| == |h.flushed|
      && (forall i :: 0 <= i < |handed| ==> Represents(handed[i], h.flushed[i], chunkSize))
      && (forall i :: 0 <= i < |handed| ==> handed[i][..VALUE_HEADER_SIZE] == ValueHeader(sourceId, metricId))
    }

    ghost predicate Valid()
      reads this, chunk, appender, appender.bstream
    {
      31 <= chunkSize <= LARGEST_CHUNK && Agrees(Run(chunkSize, history)) && Kept() == BookRun(chunkSize, history)
    }

    ghost function Kept(): Book
      reads this
    {
      Book(tupleSt, maxTime, numSamples, ranges)
    }

    // The bytes handed over, decoded one after the other, and then the current chunk (whatever
    // follows it in memory), are exactly the appended history.
    lemma BytesAreHistory(junk: seq<byte>)
      requires Valid()
      ensures forall i :: 0 <= i < |handed| ==> |handed[i]| >= VALUE_HEADER_SIZE + 2
      ensures |chunk.bstream.stream| >= VALUE_HEADER_SIZE + 2
      ensures var stored, current := StoredBytes(handed), Decoded(chunk.bstream.stream[VALUE_HEADER_SIZE..] + junk);
              stored.Some? && current.Some? && stored.value + current.value == history
    {
      hide Run, StoredBytes, Decoded, PayloadOf, Shaped, DecodeRun;
      var h := Run(chunkSize, history);
      var S, r := RunInvariant(chunkSize, history);
      assert forall i :: 0 <= i < |handed| ==> Represents(handed[i], h.flushed[i], chunkSize);
      StoredBytesAgree(handed, h.flushed, chunkSize);
      ShapedSize(chunk.bstream.stream, chunk.bstream.tailCount);
      ChunkDecodes(chunk.bstream.stream, chunk.bstream.tailCount, VALUE_HEADER_SIZE, S, r, junk);
    }

    constructor (sourceId: uint64, metricId: uint16, chunkSize: nat)
      requires 31 <= chunkSize <= LARGEST_CHUNK
      ensures Valid() && history == [] && handed == [] && ranges == []
      ensures this.sourceId == sourceId && this.metricId == metricId && this.chunkSize == chunkSize
      ensures fresh(chunk) && fresh(appender) && fresh(chunk.bstream)
    {
      this.sourceId, this.metricId, this.chunkSize := sourceId, metricId, chunkSize;
      handed, history := [], [];
      tupleSt, maxTime, numSamples, ranges := 0, -I64, 0, [];
      var c := new XORChunk(VALUE_HEADER_SIZE);
      var a := FreshAppender(c);
      chunk, appender := c, a;
    }

    // Stamps the header, hands the first chunkSize bytes over and starts a new chunk.
    method FlushTree(ghost c: Chunk)
      requires chunk.bstream.headerSize == VALUE_HEADER_SIZE && |chunk.bstream.stream| >= chunkSize
      requires Represents(chunk.bstream.stream[..chunkSize], c, chunkSize)
      modifies `chunk, `appender, `handed, `ranges, `numSamples, chunk.bstream
      ensures fresh(chunk) && fresh(appender) && fresh(chunk.bstream)
      ensures Linked() && View() == EMPTY_CHUNK
      ensures |handed| == old(|handed|) + 1 && handed[..old(|handed|)] == old(handed)
      ensures Represents(handed[old(|handed|)], c, chunkSize)
      ensures handed[old(|handed|)][..VALUE_HEADER_SIZE] == ValueHeader(sourceId, metricId)
      ensures Kept() == old(Kept()).(ranges := old(ranges) + [(tupleSt, maxTime)], num := 0)
    {
      hide ByteBits, ValueHeader;
      var s := chunk.bstream.stream;
      chunk.bstream.stream := ValueHeader(sourceId, metricId) + s[VALUE_HEADER_SIZE..];
      assert chunk.bstream.stream[..chunkSize][VALUE_HEADER_SIZE + 2..] == s[..chunkSize][VALUE_HEADER_SIZE + 2..];
      handed := handed + [chunk.bstream.stream[..chunkSize]];
      ranges, numSamples := ranges + [(tupleSt, maxTime)], 0;
      chunk := new XORChunk(VALUE_HEADER_SIZE);
      appender := FreshAppender(chunk);
    }

    // Undoes the last append in the bytes: the last byte, the count, and zeros for what was added.
    method Rollback(prevEnd: nat, prevByte: byte)
      requires chunk.bstream.headerSize == VALUE_HEADER_SIZE
      requires VALUE_HEADER_SIZE + 2 < prevEnd <= chunk.bstream.end == |chunk.bstream.stream|
      modifies chunk.bstream
      ensures var s, n := old(chunk.bstream.stream), CountOf(old(chunk.bstream.stream), VALUE_HEADER_SIZE);
              && |chunk.bstream.stream| == |s|
              && CountOf(chunk.bstream.stream, VALUE_HEADER_SIZE) == (n - 1) % COUNT_LIMIT
              && chunk.bstream.stream[prevEnd - 1] == prevByte
              && (forall i :: prevEnd <= i < |s| ==> chunk.bstream.stream[i] == 0)
              && (forall i :: 0 <= i < prevEnd - 1 && i != VALUE_HEADER_SIZE && i != VALUE_HEADER_SIZE + 1 ==> chunk.bstream.stream[i] == s[i])
    {
      var curEnd := chunk.bstream.end;
      chunk.bstream.end := prevEnd;
      chunk.bstream.stream := chunk.bstream.stream[prevEnd - 1 := prevByte];
      var n := CountOf(chunk.bstream.stream, VALUE_HEADER_SIZE);
      chunk.bstream.stream := PutCount(chunk.bstream.stream, VALUE_HEADER_SIZE, (n as int - 1) % COUNT_LIMIT);
      ghost var kept := chunk.bstream.stream;
      for i := prevEnd to curEnd
        invariant |chunk.bstream.stream| == |kept|
        invariant forall j :: 0 <= j < prevEnd ==> chunk.bstream.stream[j] == kept[j]
        invariant forall j :: prevEnd <= j < i ==> chunk.bstream.stream[j] == 0
      {
        chunk.bstream.stream := chunk.bstream.stream[i := 0];
      }
    }

    // The append that followed `before` overflowed: undo it and hand over what was there before.
    method HandOverUndone(ghost before: seq<byte>, ghost tail: nat, ghost c: Chunk, prevEnd: nat, prevByte: byte)
      requires chunk.bstream.headerSize == VALUE_HEADER_SIZE
      requires Shaped(before, tail, VALUE_HEADER_SIZE) && |before| == prevEnd && prevByte == before[prevEnd - 1]
      requires VALUE_HEADER_SIZE + 2 < prevEnd <= chunkSize < chunk.bstream.end == |chunk.bstream.stream|
      requires c.payload == PayloadOf(before, tail, VALUE_HEADER_SIZE) && c.count == CountOf(before, VALUE_HEADER_SIZE)
      requires CountOf(chunk.bstream.stream, VALUE_HEADER_SIZE) == c.count + 1
      requires forall i :: 0 <= i < |before| - 1 && i != VALUE_HEADER_SIZE && i != VALUE_HEADER_SIZE + 1 ==> chunk.bstream.stream[i] == before[i]
      modifies `chunk, `appender, `handed, `ranges, `numSamples, chunk.bstream
      ensures fresh(chunk) && fresh(appender) && fresh(chunk.bstream)
      ensures Linked() && View() == EMPTY_CHUNK
      ensures |handed| == old(|handed|) + 1 && handed[..old(|handed|)] == old(handed)
      ensures Represents(handed[old(|handed|)], c, chunkSize)
      ensures handed[old(|handed|)][..VALUE_HEADER_SIZE] == ValueHeader(sourceId, metricId)
      ensures Kept() == old(Kept()).(ranges := old(ranges) + [(tupleSt, maxTime)], num := 0)
    {
      hide PayloadOf, Shaped, Represents, ValueHeader;
      Rollback(prevEnd, prevByte);
      CountDetermines(before, chunk.bstream.stream);
      assert chunk.bstream.stream[..|before|] == before;
      RollbackRepresents(before, tail, chunk.bstream.stream, c, chunkSize);
      numSamples := numSamples - 1;
      FlushTree(c);
    }

    // The time of the sample is noted after a chunk may have been handed over.
    method Note(t: int)
      modifies `tupleSt, `maxTime, `numSamples
      ensures var b := old(Kept());
              Kept() == b.(start := if b.num + 1 == 1 then t else b.start, last := t, num := b.num + 1)
    {
      maxTime := t;
      numSamples := numSamples + 1;
      if numSamples == 1 {
        tupleSt := t;
      }
    }

    // The sample in the chunk, and a chunk handed over if it is full or had no room for it.
    method Store(t: int64, v: uint64) returns (flushed: bool)
      requires Valid()
      modifies this, appender, chunk.bstream
      ensures history == old(history) && Agrees(Step(chunkSize, Run(chunkSize, history), Sample(t, v)))
      ensures var c := Apply(Run(chunkSize, history).cur, XorCodec.Append(Sample(t, v)));
              && (flushed <==> Fills(chunkSize, c) || Overflows(chunkSize, c))
              && Kept() == (if flushed then old(Kept()).(ranges := old(ranges) + [(old(tupleSt), old(maxTime))], num := 0, last := -I64) else old(Kept()))
      ensures flushed <==> |handed| > old(|handed|)
      ensures old(handed) <= handed
      ensures chunk != old(chunk) ==> fresh(chunk) && fresh(appender) && fresh(chunk.bstream)
    {
      hide Run, BookRun, EncodeSample, NextWriter, PayloadOf, Shaped, DecodeRun, Represents, ValueHeader;
      flushed := false;
      ghost var s, h := Sample(t, v), Run(chunkSize, history);
      ghost var before, tail := chunk.bstream.stream, chunk.bstream.tailCount;
      ShapedSize(before, tail);
      PayloadSize(before, tail);
      var prevEnd := chunk.bstream.end;
      var prevByte := chunk.bstream.stream[prevEnd - 1];
      appender.Append(t, v);
      ghost var c := View();
      assert c == Apply(h.cur, XorCodec.Append(s));
      PayloadSize(chunk.bstream.stream, chunk.bstream.tailCount);
      OverflowFacts(chunkSize, history, s);
      var curEnd := chunk.bstream.end;
      if curEnd == chunkSize && chunk.bstream.tailCount >= 6 {
        FullRepresents(chunk.bstream.stream, chunk.bstream.tailCount, c);
        FlushTree(c);
        flushed := true;
        maxTime := -I64;
      } else if curEnd > chunkSize {
        HandOverUndone(before, tail, h.cur, prevEnd, prevByte);
        flushed := true;
        maxTime := -I64;
        appender.Append(t, v);
      }
    }

    method Append(t: int64, v: uint64) returns (flushed: bool)
      requires Valid()
      modifies this, appender, chunk.bstream
      ensures Valid()
      ensures history == old(history) + [Sample(t, v)]
      ensures flushed <==> |handed| > old(|handed|)
      ensures old(handed) <= handed && old(ranges) <= ranges
      ensures chunk != old(chunk) ==> fresh(chunk) && fresh(appender) && fresh(chunk.bstream)
    {
      hide Run, BookRun, Represents, Step, Apply, Size;
      ghost var s := Sample(t, v);
      flushed := Store(t, v);
      Note(t);
      RunSnoc(chunkSize, history, s);
      BookRunSnoc(chunkSize, history, s);
      history := history + [s];
    }
  }

  lemma ShapedSize(stream: seq<byte>, tail: nat)
    requires Shaped(stream, tail, VALUE_HEADER_SIZE)
    ensures |stream| >= VALUE_HEADER_SIZE + 2
  {
  }

  lemma BookRunSnoc(chunkSize: nat, history: seq<Sample>, s: Sample)
    ensures BookRun(chunkSize, history + [s]) == BookStep(chunkSize, Run(chunkSize, history), BookRun(chunkSize, history), s)
  {
    hide BookStep;
    assert (history + [s])[..|history|] == history;
  }

  lemma RunSnoc(chunkSize: nat, history: seq<Sample>, s: Sample)
    ensures Run(chunkSize, history + [s]) == Step(chunkSize, Run(chunkSize, history), s)
  {
    assert (history + [s])[..|history|] == history;
  }

  // An append that overflows: the chunk before it was within the size, not empty, and its
  // count did not wrap.
  lemma OverflowFacts(chunkSize: nat, history: seq<Sample>, s: Sample)
    requires 31 <= chunkSize <= LARGEST_CHUNK
    ensures var c := Run(chunkSize, history).cur;
            && Size(c.payload) <= chunkSize && c.count + 1 < COUNT_LIMIT
            && (Size(Apply(c, Append(s)).payload) > chunkSize ==> c.payload != [])
  {
    hide Run, EncodeSample, NextWriter, DecodeRun;
    var S, r := RunInvariant(chunkSize, history);
    var c := Run(chunkSize, history).cur;
    OpenCount(c, chunkSize, S, r);
    if c.payload == [] {
      SampleCost(c.w, 0, s);
    }
  }

  lemma CountDetermines(a: seq<byte>, b: seq<byte>)
    requires |a| >= VALUE_HEADER_SIZE + 2 && |b| >= VALUE_HEADER_SIZE + 2
    requires CountOf(a, VALUE_HEADER_SIZE) == CountOf(b, VALUE_HEADER_SIZE)
    ensures a[VALUE_HEADER_SIZE] == b[VALUE_HEADER_SIZE] && a[VALUE_HEADER_SIZE + 1] == b[VALUE_HEADER_SIZE + 1]
  {
  }
}
