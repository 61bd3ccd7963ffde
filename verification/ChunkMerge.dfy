/**
  Merging chunks of one series during compaction: where two chunks hold the same time, the later
  chunk wins; chunks whose time ranges touch become one.
*/
module ChunkMerge {
  import opened Words
  import opened XorCodec
  import opened BitStreams
  import opened XorChunks

  // Merging samples ///////////////////////////////////////////////////////////////////////////

  function Merge(a: seq<Sample>, b: seq<Sample>): seq<Sample>
  {
    if a == [] then b
    else if b == [] then a
    else if a[0].t < b[0].t then [a[0]] + Merge(a[1..], b)
    else if a[0].t > b[0].t then [b[0]] + Merge(a, b[1..])
    else [b[0]] + Merge(a[1..], b[1..])
  }

  predicate Ascending(s: seq<Sample>)
  {
    forall i, j :: 0 <= i < j < |s| ==> s[i].t < s[j].t
  }

  // The value at time t.
  function At(s: seq<Sample>, t: int): Option<uint64>
  {
    if s == [] then None else if s[0].t == t then Some(s[0].v) else At(s[1..], t)
  }

  // All times are in the closed range from lo to hi.
  predicate Within(s: seq<Sample>, lo: int, hi: int)
  {
    forall i :: 0 <= i < |s| ==> lo <= s[i].t <= hi
  }

  lemma {:induction false} AtInside(s: seq<Sample>, t: int)
    ensures At(s, t).Some? ==> exists i :: 0 <= i < |s| && s[i].t == t
  {
    if s != [] && s[0].t != t {
      AtInside(s[1..], t);
      if At(s, t).Some? {
        var i :| 0 <= i < |s[1..]| && s[1..][i].t == t;
        assert s[i + 1].t == t;
      }
    }
  }

  // A time before the first sample has no value.
  lemma AtBefore(s: seq<Sample>, t: int)
    requires Ascending(s) && (s != [] ==> t < s[0].t)
    ensures At(s, t) == None
  {
    AtInside(s, t);
  }

  lemma {:induction false} MergeWithin(a: seq<Sample>, b: seq<Sample>, lo: int, hi: int)
    requires Within(a, lo, hi) && Within(b, lo, hi)
    ensures Within(Merge(a, b), lo, hi)
    decreases |a| + |b|
  {
    if a == [] || b == [] {
    } else if a[0].t < b[0].t {
      MergeWithin(a[1..], b, lo, hi);
    } else if a[0].t > b[0].t {
      MergeWithin(a, b[1..], lo, hi);
    } else {
      MergeWithin(a[1..], b[1..], lo, hi);
    }
  }

  predicate After(s: seq<Sample>, t: int)
  {
    forall i :: 0 <= i < |s| ==> t < s[i].t
  }

  lemma AscendingHead(x: Sample, s: seq<Sample>)
    requires Ascending(s) && After(s, x.t)
    ensures Ascending([x] + s)
  {
  }

  lemma AscendingTail(s: seq<Sample>)
    requires s != [] && Ascending(s)
    ensures Ascending(s[1..]) && After(s[1..], s[0].t) && forall t: int :: t < s[0].t ==> After(s, t)
  {
  }

  lemma {:induction false} MergeAfter(a: seq<Sample>, b: seq<Sample>, t: int)
    requires After(a, t) && After(b, t)
    ensures After(Merge(a, b), t)
    decreases |a| + |b|
  {
    if a == [] || b == [] {
    } else if a[0].t < b[0].t {
      MergeAfter(a[1..], b, t);
    } else if a[0].t > b[0].t {
      MergeAfter(a, b[1..], t);
    } else {
      MergeAfter(a[1..], b[1..], t);
    }
  }

  lemma {:induction false} MergeAscends(a: seq<Sample>, b: seq<Sample>)
    requires Ascending(a) && Ascending(b)
    ensures Ascending(Merge(a, b))
    decreases |a| + |b|
  {
    hide Ascending, After;
    if a != [] && b != [] {
      AscendingTail(a);
      AscendingTail(b);
      if a[0].t < b[0].t {
        MergeAscends(a[1..], b);
        MergeAfter(a[1..], b, a[0].t);
        AscendingHead(a[0], Merge(a[1..], b));
      } else if a[0].t > b[0].t {
        MergeAscends(a, b[1..]);
        MergeAfter(a, b[1..], b[0].t);
        AscendingHead(b[0], Merge(a, b[1..]));
      } else {
        MergeAscends(a[1..], b[1..]);
        MergeAfter(a[1..], b[1..], b[0].t);
        AscendingHead(b[0], Merge(a[1..], b[1..]));
      }
    }
  }

  // The merge has at each time the value of the second chunk if there is one, else of the first.
  lemma {:induction false} MergeMeans(a: seq<Sample>, b: seq<Sample>, t: int)
    requires Ascending(a) && Ascending(b)
    ensures At(Merge(a, b), t) == if At(b, t).Some? then At(b, t) else At(a, t)
    decreases |a| + |b|
  {
    hide Ascending, After;
    if a != [] && b != [] {
      AscendingTail(a);
      AscendingTail(b);
      if a[0].t < b[0].t {
        MergeMeans(a[1..], b, t);
        AtBefore(b, a[0].t);
      } else if a[0].t > b[0].t {
        MergeMeans(a, b[1..], t);
      } else {
        MergeMeans(a[1..], b[1..], t);
      }
    }
  }

  // Merging chunks that touch ////////////////////////////////////////////////////////////////

  // A chunk with its closed time range.
  datatype Meta = Meta(min: int, max: int, samples: seq<Sample>)

  predicate MetaOk(c: Meta)
  {
    Ascending(c.samples) && Within(c.samples, c.min, c.max)
  }

  function Max(x: int, y: int): int { if x < y then y else x }

  // One more chunk, in the order of start times.
  function Add(out: seq<Meta>, c: Meta): seq<Meta>
  {
    if out == [] || c.min > out[|out| - 1].max then out + [c]
    else
      var last := out[|out| - 1];
      out[..|out| - 1] + [Meta(last.min, Max(last.max, c.max), Merge(last.samples, c.samples))]
  }

  function AddAll(chunks: seq<Meta>): seq<Meta>
  {
    if chunks == [] then [] else Add(AddAll(chunks[..|chunks| - 1]), chunks[|chunks| - 1])
  }

  // The value at time t from the last chunk that has one.
  function LastWins(chunks: seq<Meta>, t: int): Option<uint64>
  {
    if chunks == [] then None
    else
      var c := chunks[|chunks| - 1];
      if At(c.samples, t).Some? then At(c.samples, t) else LastWins(chunks[..|chunks| - 1], t)
  }

  predicate ByStart(chunks: seq<Meta>)
  {
    forall i, j :: 0 <= i < j < |chunks| ==> chunks[i].min <= chunks[j].min
  }

  // Each range ends before the next begins.
  predicate Separated(chunks: seq<Meta>)
  {
    forall i, j :: 0 <= i < j < |chunks| ==> chunks[i].max < chunks[j].min
  }

  predicate AllOk(chunks: seq<Meta>)
  {
    forall i :: 0 <= i < |chunks| ==> chunks[i].min <= chunks[i].max && MetaOk(chunks[i])
  }

  // No range starts after t.
  predicate StartedBy(chunks: seq<Meta>, t: int)
  {
    forall i :: 0 <= i < |chunks| ==> chunks[i].min <= t
  }

  lemma MergedOk(last: Meta, c: Meta)
    requires MetaOk(last) && MetaOk(c) && last.min <= c.min
    ensures MetaOk(Meta(last.min, Max(last.max, c.max), Merge(last.samples, c.samples)))
  {
    var hi := Max(last.max, c.max);
    MergeAscends(last.samples, c.samples);
    hide Ascending;
    assert Within(last.samples, last.min, hi) && Within(c.samples, last.min, hi);
    MergeWithin(last.samples, c.samples, last.min, hi);
  }

  lemma AddKeeps(out: seq<Meta>, c: Meta)
    requires AllOk(out) && Separated(out) && StartedBy(out, c.min) && c.min <= c.max && MetaOk(c)
    ensures AllOk(Add(out, c)) && Separated(Add(out, c)) && StartedBy(Add(out, c), c.min)
  {
    hide MetaOk, Merge;
    if out != [] { MergedOk(out[|out| - 1], c); }
  }

  lemma AddMeans(out: seq<Meta>, c: Meta, t: int)
    requires AllOk(out) && MetaOk(c)
    ensures LastWins(Add(out, c), t) == if At(c.samples, t).Some? then At(c.samples, t) else LastWins(out, t)
  {
    hide Merge, At;
    var n, next := |out|, Add(out, c);
    if out == [] || c.min > out[n - 1].max {
      assert next[..|next| - 1] == out;
    } else {
      MergeMeans(out[n - 1].samples, c.samples, t);
      assert next[..|next| - 1] == out[..n - 1];
    }
  }

  // The result covers separate ranges in ascending order, each with ascending samples, and has
  // at each time the value of the last input chunk that has one.
  lemma {:induction false} AddAllMeans(chunks: seq<Meta>, t: int)
    requires AllOk(chunks) && ByStart(chunks)
    ensures AllOk(AddAll(chunks)) && Separated(AddAll(chunks))
    ensures chunks != [] ==> StartedBy(AddAll(chunks), chunks[|chunks| - 1].min)
    ensures LastWins(AddAll(chunks), t) == LastWins(chunks, t)
  {
    if chunks != [] {
      var n := |chunks|;
      var c, out := chunks[n - 1], AddAll(chunks[..n - 1]);
      AddAllMeans(chunks[..n - 1], t);
      assert n > 1 ==> chunks[n - 2].min <= c.min;
      assert StartedBy(out, c.min);
      hide Add, AllOk, Separated;
      assert AllOk(out) && c.min <= c.max && MetaOk(c);
      AddKeeps(out, c);
      AddMeans(out, c, t);
    }
  }

  // Which chunks become one /////////////////////////////////////////////////////////////////

  // Time t lies in one of the ranges.
  ghost predicate Covers(chunks: seq<Meta>, t: int)
  {
    exists i :: 0 <= i < |chunks| && chunks[i].min <= t <= chunks[i].max
  }

  // Some range starts at t.
  ghost predicate Starts(chunks: seq<Meta>, t: int)
  {
    exists i :: 0 <= i < |chunks| && chunks[i].min == t
  }

  // Every earlier chunk has ended before this one begins.
  predicate Leads(chunks: seq<Meta>, i: nat)
  {
    i < |chunks| && forall j :: 0 <= j < i ==> chunks[j].max < chunks[i].min
  }

  ghost predicate Led(chunks: seq<Meta>, t: int)
  {
    exists i: nat :: Leads(chunks, i) && chunks[i].min == t
  }

  lemma CoversOneMore(chunks: seq<Meta>, c: Meta, t: int)
    ensures Covers(chunks + [c], t) <==> Covers(chunks, t) || c.min <= t <= c.max
    ensures Starts(chunks + [c], t) <==> Starts(chunks, t) || c.min == t
  {
    var n, more := |chunks|, chunks + [c];
    assert more[n] == c;
    forall i | 0 <= i < n ensures more[i] == chunks[i] {}
  }

  lemma AddCovers(out: seq<Meta>, c: Meta, t: int)
    requires AllOk(out) && StartedBy(out, c.min) && c.min <= c.max
    ensures Covers(Add(out, c), t) <==> Covers(out, t) || c.min <= t <= c.max
    ensures Starts(Add(out, c), t) <==> Starts(out, t) || ((out == [] || c.min > out[|out| - 1].max) && c.min == t)
  {
    hide Covers, Starts, MetaOk, Merge;
    if out == [] || c.min > out[|out| - 1].max {
      CoversOneMore(out, c, t);
    } else {
      var front, last := out[..|out| - 1], out[|out| - 1];
      assert out == front + [last];
      CoversOneMore(front, last, t);
      CoversOneMore(front, Meta(last.min, Max(last.max, c.max), Merge(last.samples, c.samples)), t);
    }
  }

  // The last range of the result ends where the last of the inputs ends.
  lemma LastEnd(out: seq<Meta>, chunks: seq<Meta>)
    requires AllOk(out) && Separated(out) && AllOk(chunks) && out != []
    requires forall t :: Covers(out, t) <==> Covers(chunks, t)
    ensures exists j :: 0 <= j < |chunks| && chunks[j].max == out[|out| - 1].max
    ensures forall j :: 0 <= j < |chunks| ==> chunks[j].max <= out[|out| - 1].max
  {
    hide MetaOk;
    var end := out[|out| - 1].max;
    forall j | 0 <= j < |chunks| ensures chunks[j].max <= end {
      assert Covers(chunks, chunks[j].max);
      var k :| 0 <= k < |out| && out[k].min <= chunks[j].max <= out[k].max;
    }
    assert Covers(out, end);
    var j :| 0 <= j < |chunks| && chunks[j].min <= end <= chunks[j].max;
  }

  lemma LedOneMore(chunks: seq<Meta>, c: Meta, t: int)
    ensures Led(chunks + [c], t) <==>
            Led(chunks, t) || (c.min == t && forall j :: 0 <= j < |chunks| ==> chunks[j].max < c.min)
  {
    var n, more := |chunks|, chunks + [c];
    forall i: nat | i < n ensures Leads(more, i) <==> Leads(chunks, i) {
      if Leads(more, i) { forall j | 0 <= j < i ensures chunks[j].max < chunks[i].min { assert more[j].max < more[i].min; } }
    }
    if Led(chunks, t) {
      var i: nat :| Leads(chunks, i) && chunks[i].min == t;
      assert Leads(more, i) && more[i].min == t;
    }
    if forall j :: 0 <= j < n ==> chunks[j].max < c.min { assert Leads(more, n); }
    if Led(more, t) {
      var i: nat :| Leads(more, i) && more[i].min == t;
      if i == n { forall j | 0 <= j < n ensures chunks[j].max < c.min { assert more[j].max < more[n].min; } }
    }
  }

  // The same times covered; ranges starting with the chunks that lead.
  ghost predicate Groups(out: seq<Meta>, chunks: seq<Meta>)
  {
    && (forall t :: Covers(out, t) <==> Covers(chunks, t))
    && (forall t :: Starts(out, t) <==> Led(chunks, t))
  }

  // Whether the next chunk starts a range is whether it leads.
  lemma LeadsOrNot(out: seq<Meta>, chunks: seq<Meta>, c: Meta)
    requires AllOk(out) && Separated(out) && AllOk(chunks) && Groups(out, chunks) && (out == [] ==> chunks == [])
    ensures out == [] || c.min > out[|out| - 1].max <==> forall j :: 0 <= j < |chunks| ==> chunks[j].max < c.min
  {
    hide Covers, MetaOk, AllOk, Separated;
    if out != [] {
      LastEnd(out, chunks);
      var k :| 0 <= k < |chunks| && chunks[k].max == out[|out| - 1].max;
    }
  }

  lemma AddGroups(out: seq<Meta>, chunks: seq<Meta>, c: Meta)
    requires AllOk(out) && Separated(out) && AllOk(chunks) && Groups(out, chunks) && (out == [] ==> chunks == [])
    requires StartedBy(out, c.min) && c.min <= c.max
    ensures Groups(Add(out, c), chunks + [c])
  {
    LeadsOrNot(out, chunks, c);
    hide Covers, Starts, Led, AllOk, Separated, StartedBy, Add;
    forall t ensures Covers(Add(out, c), t) <==> Covers(chunks + [c], t)
             ensures Starts(Add(out, c), t) <==> Led(chunks + [c], t)
    {
      AddCovers(out, c, t);
      CoversOneMore(chunks, c, t);
      LedOneMore(chunks, c, t);
    }
  }

  // The result covers exactly the times that the inputs cover, and has one range for each chunk
  // that begins after all earlier ones have ended, starting with it.
  lemma {:induction false} AddAllGroups(chunks: seq<Meta>)
    requires AllOk(chunks) && ByStart(chunks)
    ensures Groups(AddAll(chunks), chunks)
  {
    hide Groups, Add, AllOk, ByStart, Separated, StartedBy;
    if chunks == [] {
      NothingGroups();
    } else {
      var n := |chunks|;
      var before, c := chunks[..n - 1], chunks[n - 1];
      InputsBefore(chunks);
      AddAllGroups(before);
      if AddAll(before) == [] { NothingAdded(before); }
      AddGroups(AddAll(before), before, c);
      assert chunks == before + [c];
    }
  }

  lemma InputsBefore(chunks: seq<Meta>)
    requires AllOk(chunks) && ByStart(chunks) && chunks != []
    ensures var before, c := chunks[..|chunks| - 1], chunks[|chunks| - 1];
            && AllOk(before) && ByStart(before) && c.min <= c.max
            && AllOk(AddAll(before)) && Separated(AddAll(before)) && StartedBy(AddAll(before), c.min)
  {
    var n := |chunks|;
    AddAllMeans(chunks[..n - 1], 0);
    hide MetaOk, AddAll, Separated;
    assert n > 1 ==> chunks[n - 2].min <= chunks[n - 1].min;
    if n == 1 { assert chunks[..0] == []; AddAllNone(); }
  }

  lemma AddAllNone()
    ensures AddAll([]) == []
  {
  }

  lemma NothingGroups()
    ensures Groups(AddAll([]), [])
  {
  }

  lemma NothingAdded(chunks: seq<Meta>)
    requires AddAll(chunks) == []
    ensures chunks == []
  {
  }

  // The merge of two chunks ////////////////////////////////////////////////////////////////////

  // The iterator has yet to yield exactly these samples.
  ghost predicate Yields(it: XORIterator, rest: seq<Sample>)
    reads it, it.reader
  {
    && it.Valid() && !it.err
    && var o := DecodeRun(it.State(), it.numRead, it.numTotal - it.numRead, it.Rest());
       o.Some? && o.value.0 == rest
  }

  method Advance(it: XORIterator, ghost good: bool, ghost rest: seq<Sample>) returns (ok: bool)
    requires it.Valid() && (good ==> Yields(it, rest))
    modifies it, it.reader
    ensures it.Valid() && it.numRead == old(it.numRead) + (if ok then 1 else 0)
    ensures good ==> ok == (rest != []) && !it.err
    ensures good && ok ==> Sample(it.timestamp, it.value) == rest[0] && Yields(it, rest[1..])
  {
    hide DecodeSample, DecodeRun;
    if good {
      if it.numRead < it.numTotal {
        RunStep(it.State(), it.numRead, it.numTotal - it.numRead, it.Rest());
      } else {
        RunNothing(it.State(), it.numRead, it.Rest());
      }
    }
    ok := it.Next();
  }

  // The appender's stream is the chunk of these samples, as long as its count can say so.
  ghost predicate Built(app: XORAppender, done: seq<Sample>)
    reads app, app.bstream
  {
    && app.Valid() && app.bstream.headerSize == 0
    && (|done| < COUNT_LIMIT ==>
          exists r :: ChunkOf(app.bstream.stream, app.bstream.tailCount, 0, done, r) && InStep(app.State(), r, |done|))
  }

  method AppendTo(app: XORAppender, t: int64, v: uint64, ghost done: seq<Sample>)
    requires Built(app, done)
    modifies app, app.bstream
    ensures Built(app, done + [Sample(t, v)])
  {
    hide ChunkOf, InStep, EncodeSample, NextWriter, WindowOk, Shaped;
    ghost var stream, tail, w := app.bstream.stream, app.bstream.tailCount, app.State();
    app.Append(t, v);
    if |done| + 1 < COUNT_LIMIT {
      ghost var r :| ChunkOf(stream, tail, 0, done, r) && InStep(w, r, |done|);
      ChunkCount(stream, tail, done, r);
      ghost var r' := ChunkAppend(stream, tail, app.bstream.stream, app.bstream.tailCount, 0, done, r, w, Sample(t, v));
    }
  }

  lemma ChunkCount(stream: seq<byte>, tail: nat, samples: seq<Sample>, r: Codec)
    requires ChunkOf(stream, tail, 0, samples, r)
    ensures |stream| >= 2 && CountOf(stream, 0) == |samples|
  {
  }

  method NewAppender() returns (app: XORAppender)
    ensures fresh(app) && fresh(app.bstream) && Built(app, [])
  {
    hide ChunkOf, DecodeRun;
    var chunk := new XORChunk(0);
    var past: byte := *;
    var o := chunk.Appender([], past);
    app := o.value;
    HoldsNothing();
    EmptyShaped(chunk.bstream.stream, chunk.bstream.tailCount);
  }

  lemma EmptyShaped(stream: seq<byte>, tail: nat)
    requires ChunkOf(stream, tail, 0, [], FRESH_READER)
    ensures Shaped(stream, tail, 0)
  {
  }

  lemma BuiltDecodes(app: XORAppender, done: seq<Sample>)
    requires Built(app, done)
    ensures |app.bstream.stream| >= 2
    ensures Decoded(app.bstream.stream) == Some(done) <==> |done| < COUNT_LIMIT
  {
    hide DecodeRun, ByteBits, InStep;
    var stream := app.bstream.stream;
    if |done| < COUNT_LIMIT {
      var r :| ChunkOf(stream, app.bstream.tailCount, 0, done, r) && InStep(app.State(), r, |done|);
      ChunkDecodes(stream, app.bstream.tailCount, 0, done, r, []);
      assert stream[0..] + [] == stream;
    }
  }

  // What is still to come of the merge: the sample an iterator stands on, and the rest.
  ghost predicate Coming(it: XORIterator, ok: bool, good: bool, rest: seq<Sample>)
    reads it, it.reader
  {
    && it.Valid()
    && (good ==>
          && !it.err && (ok <==> rest != [])
          && (ok ==> rest[0] == Sample(it.timestamp, it.value) && Yields(it, rest[1..])))
  }

  method Shift(it: XORIterator, ghost good: bool, ghost rest: seq<Sample>) returns (ok: bool)
    requires Coming(it, true, good, rest)
    modifies it, it.reader
    ensures Coming(it, ok, good, if good then rest[1..] else rest)
    ensures it.numRead == old(it.numRead) + (if ok then 1 else 0)
  {
    hide DecodeRun;
    ok := Advance(it, good, if good then rest[1..] else rest);
  }

  // One sample of the merge: the earlier one, or at equal times that of the second iterator.
  method ZipStep(app: XORAppender, it1: XORIterator, it2: XORIterator, ghost good: bool,
                 ghost ra: seq<Sample>, ghost rb: seq<Sample>, ghost done: seq<Sample>)
    returns (ok1: bool, ok2: bool, ghost ra': seq<Sample>, ghost rb': seq<Sample>, ghost done': seq<Sample>)
    requires Built(app, done) && Coming(it1, true, good, ra) && Coming(it2, true, good, rb)
    requires it1 != it2 && it1.reader != it2.reader
    modifies app, app.bstream, it1, it1.reader, it2, it2.reader
    ensures Built(app, done') && Coming(it1, ok1, good, ra') && Coming(it2, ok2, good, rb')
    ensures good ==> done' + Merge(ra', rb') == done + Merge(ra, rb)
    ensures var n1, n2 := it1.numRead - old(it1.numRead), it2.numRead - old(it2.numRead);
            0 <= n1 && 0 <= n2 && (ok1 && ok2 ==> n1 + n2 > 0)
  {
    hide Built, Yields, Merge;
    ok1, ok2, ra', rb' := true, true, ra, rb;
    if good { MergeStep(ra, rb); }
    var second := it1.timestamp >= it2.timestamp;
    var first := it1.timestamp <= it2.timestamp;
    var t, v := if second then it2.timestamp else it1.timestamp, if second then it2.value else it1.value;
    AppendTo(app, t, v, done);
    done' := done + [Sample(t, v)];
    if first {
      ok1 := Shift(it1, good, ra);
      ra' := if good then ra[1..] else ra;
    }
    if second {
      ok2 := Shift(it2, good, rb);
      rb' := if good then rb[1..] else rb;
    }
  }

  // Both iterators as long as both have samples.
  method ZipBoth(app: XORAppender, it1: XORIterator, it2: XORIterator, more1: bool, more2: bool, ghost good: bool,
                 ghost a: seq<Sample>, ghost b: seq<Sample>)
    returns (ok1: bool, ok2: bool, ghost ra: seq<Sample>, ghost rb: seq<Sample>, ghost done: seq<Sample>)
    requires Built(app, []) && Coming(it1, more1, good, a) && Coming(it2, more2, good, b)
    requires it1 != it2 && it1.reader != it2.reader
    modifies app, app.bstream, it1, it1.reader, it2, it2.reader
    ensures Built(app, done) && Coming(it1, ok1, good, ra) && Coming(it2, ok2, good, rb)
    ensures !ok1 || !ok2
    ensures good ==> Merge(a, b) == done + Merge(ra, rb)
  {
    hide Built, Merge, Yields;
    ok1, ok2, ra, rb, done := more1, more2, a, b, [];
    while ok1 && ok2
      invariant Built(app, done) && Coming(it1, ok1, good, ra) && Coming(it2, ok2, good, rb)
      invariant good ==> Merge(a, b) == done + Merge(ra, rb)
      decreases it1.numTotal - it1.numRead + it2.numTotal - it2.numRead, ok1 && ok2
    {
      ok1, ok2, ra, rb, done := ZipStep(app, it1, it2, good, ra, rb, done);
    }
  }

  method Zip(app: XORAppender, it1: XORIterator, it2: XORIterator, ghost good: bool, ghost a: seq<Sample>, ghost b: seq<Sample>)
    returns (ghost done: seq<Sample>)
    requires Built(app, []) && it1.Valid() && it2.Valid() && (good ==> Yields(it1, a) && Yields(it2, b))
    requires it1 != it2 && it1.reader != it2.reader
    modifies app, app.bstream, it1, it1.reader, it2, it2.reader
    ensures Built(app, done) && (good ==> done == Merge(a, b) && !it1.err && !it2.err)
  {
    hide Built, Merge, Yields;
    var ok1 := Advance(it1, good, a);
    var ok2 := Advance(it2, good, b);
    ghost var ra, rb, part;
    ok1, ok2, ra, rb, part := ZipBoth(app, it1, it2, ok1, ok2, good, a, b);
    MergeEmpty(ra, rb);
    assert good ==> Merge(a, b) == part + (ra + rb);
    ghost var part1 := DrainTo(app, it1, ok1, good, ra, part);
    ghost var part2 := DrainTo(app, it2, ok2, good, rb, part1);
    done := part2;
    assert good ==> done == part + (ra + rb);
  }

  method Open(c: seq<byte>, past: byte) returns (it: XORIterator)
    requires |c| >= 2
    ensures fresh(it) && fresh(it.reader) && it.Valid()
    ensures Decoded(c).Some? ==> Yields(it, Decoded(c).value)
  {
    hide DecodeRun, ByteBits;
    it := new XORIterator(c, past);
  }

  // The samples of both chunks in one, the second winning ties. The result decodes to the merge
  // exactly when its count can hold the number of samples.
  method MergeChunks(c1: seq<byte>, c2: seq<byte>, past1: byte, past2: byte) returns (c: seq<byte>, failed: bool)
    requires |c1| >= 2 && |c2| >= 2
    ensures |c| >= 2
    ensures var (a, b) := (Decoded(c1), Decoded(c2));
            a.Some? && b.Some? ==>
              !failed && (Decoded(c) == Some(Merge(a.value, b.value)) <==> |Merge(a.value, b.value)| < COUNT_LIMIT)
  {
    ghost var good := Decoded(c1).Some? && Decoded(c2).Some?;
    ghost var a, b := if good then Decoded(c1).value else [], if good then Decoded(c2).value else [];
    hide Decoded, Built, Merge, Yields;
    var app := NewAppender();
    var it1 := Open(c1, past1);
    var it2 := Open(c2, past2);
    ghost var done := Zip(app, it1, it2, good, a, b);
    BuiltDecodes(app, done);
    c, failed := app.bstream.stream, it1.err || it2.err;
  }

  lemma MergeStep(a: seq<Sample>, b: seq<Sample>)
    requires a != [] && b != []
    ensures a[0].t < b[0].t ==> Merge(a, b) == [a[0]] + Merge(a[1..], b)
    ensures a[0].t > b[0].t ==> Merge(a, b) == [b[0]] + Merge(a, b[1..])
    ensures a[0].t == b[0].t ==> Merge(a, b) == [b[0]] + Merge(a[1..], b[1..])
  {
  }

  lemma MergeEmpty(a: seq<Sample>, b: seq<Sample>)
    ensures a == [] || b == [] ==> Merge(a, b) == a + b
  {
    assert a + [] == a;
  }

  method DrainTo(app: XORAppender, it: XORIterator, more: bool, ghost good: bool, ghost rest: seq<Sample>, ghost done: seq<Sample>)
    returns (ghost done': seq<Sample>)
    requires Built(app, done) && Coming(it, more, good, rest)
    modifies app, app.bstream, it, it.reader
    ensures Built(app, done') && (good ==> done' == done + rest && !it.err)
  {
    hide Built, Yields;
    var ok := more;
    ghost var left := rest;
    done' := done;
    while ok
      invariant Built(app, done') && Coming(it, ok, good, left)
      invariant good ==> done + rest == done' + left
      decreases it.numTotal - it.numRead + (if ok then 1 else 0)
    {
      AppendTo(app, it.timestamp, it.value, done');
      done' := done' + [Sample(it.timestamp, it.value)];
      assert good ==> done' + left[1..] == done + rest;
      ok := Shift(it, good, left);
      left := if good then left[1..] else left;
    }
  }

  // Merging a list of chunks //////////////////////////////////////////////////////////////////

  class ChunkMeta {
    var min: int
    var max: int
    var chunk: seq<byte>

    constructor (min: int, max: int, chunk: seq<byte>)
      ensures this.min == min && this.max == max && this.chunk == chunk
    {
      this.min, this.max, this.chunk := min, max, chunk;
    }

    // This object holds the chunk c; its bytes are only spoken for when `good`.
    ghost predicate Is(c: Meta, good: bool)
      reads this
    {
      min == c.min && max == c.max && |chunk| >= 2 && (good ==> Decoded(chunk) == Some(c.samples))
    }
  }

  ghost predicate Hold(objects: seq<ChunkMeta>, chunks: seq<Meta>, good: bool)
    reads objects
  {
    |objects| == |chunks| && forall i :: 0 <= i < |objects| ==> objects[i].Is(chunks[i], good)
  }

  predicate Distinct(objects: seq<ChunkMeta>)
  {
    forall i, j :: 0 <= i < j < |objects| ==> objects[i] != objects[j]
  }

  // Every chunk has at most as many samples as its count can hold.
  predicate Countable(chunks: seq<Meta>)
  {
    forall i :: 0 <= i < |chunks| ==> |chunks[i].samples| < COUNT_LIMIT
  }

  lemma {:induction false} MergeGrows(a: seq<Sample>, b: seq<Sample>)
    ensures |Merge(a, b)| >= |a|
    decreases |a| + |b|
  {
    if a != [] && b != [] {
      if a[0].t < b[0].t {
        MergeGrows(a[1..], b);
      } else if a[0].t > b[0].t {
        MergeGrows(a, b[1..]);
      } else {
        MergeGrows(a[1..], b[1..]);
      }
    }
  }

  lemma CountableBack(out: seq<Meta>, c: Meta)
    requires Countable(Add(out, c))
    ensures Countable(out)
  {
    hide Merge;
    var n, next := |out|, Add(out, c);
    if n > 0 {
      MergeGrows(out[n - 1].samples, c.samples);
      forall i | 0 <= i < n ensures |out[i].samples| < COUNT_LIMIT { assert i < n - 1 ==> next[i] == out[i]; assert |next[i].samples| < COUNT_LIMIT; }
    }
  }

  lemma {:induction false} CountablePrefix(chunks: seq<Meta>, i: nat)
    requires i <= |chunks| && Countable(AddAll(chunks))
    ensures Countable(AddAll(chunks[..i]))
    decreases |chunks| - i
  {
    if i == |chunks| {
      assert chunks[..i] == chunks;
    } else {
      CountablePrefix(chunks, i + 1);
      assert chunks[..i + 1][..i] == chunks[..i];
      CountableBack(AddAll(chunks[..i]), chunks[i]);
    }
  }

  // One more chunk: kept apart, or merged into the last one, which is updated in place.
  method AddChunk(merged: seq<ChunkMeta>, c: ChunkMeta, past1: byte, past2: byte, ghost out: seq<Meta>, ghost meta: Meta, ghost good: bool)
    returns (merged': seq<ChunkMeta>, failed: bool)
    requires merged != [] && Distinct(merged) && c !in merged && Hold(merged, out, good) && c.Is(meta, good)
    requires good ==> Countable(Add(out, meta))
    modifies merged
    ensures Distinct(merged') && merged' != [] && (forall o :: o in merged' ==> o in merged || o == c)
    ensures good ==> !failed
    ensures !failed ==> Hold(merged', Add(out, meta), good)
  {
    hide Decoded, Merge;
    failed := false;
    var last := |merged| - 1;
    if c.min > merged[last].max {
      return merged + [c], false;
    }
    merged' := merged;
    if merged[last].max < c.max {
      merged[last].max := c.max;
    }
    var chunk;
    chunk, failed := MergeChunks(merged[last].chunk, c.chunk, past1, past2);
    if failed {
      return;
    }
    merged[last].chunk := chunk;
    assert good ==> |Add(out, meta)[last].samples| < COUNT_LIMIT;
  }

  // The chunks of a series, with those that touch merged into the first of them in place. The
  // result is the list of `AddAll` exactly when no merged chunk has too many samples to count; for
  // chunks in the order of their start times its ranges are separate, cover what the chunks cover, and
  // start with the chunks that begin after all earlier ones have ended.
  method MergeOverlappingChunks(chunks: seq<ChunkMeta>, ghost metas: seq<Meta>) returns (merged: seq<ChunkMeta>, failed: bool)
    requires Distinct(chunks) && Hold(chunks, metas, true)
    modifies chunks
    ensures !failed && Hold(merged, AddAll(metas), true) <==> Countable(AddAll(metas))
    ensures AllOk(metas) && ByStart(metas) ==> Separated(AddAll(metas)) && Groups(AddAll(metas), metas)
  {
    hide AddAll, Add, Decoded, Countable, Distinct, FromFirst, AllOk, ByStart, Separated, Groups;
    if AllOk(metas) && ByStart(metas) {
      AddAllMeans(metas, 0);
      AddAllGroups(metas);
    }
    failed := false;
    ghost var good := Countable(AddAll(metas));
    if |chunks| < 2 {
      FewUnchanged(metas);
      HeldIsCountable(chunks, metas);
      return chunks, false;
    }
    merged := [chunks[0]];
    AddAllOne(metas);
    FromFirstOne(chunks);
    var i := 1;
    while i < |chunks|
      invariant 1 <= i <= |chunks| && !failed && merged != [] && Distinct(merged) && FromFirst(merged, chunks, i)
      invariant Hold(merged, AddAll(metas[..i]), good)
      invariant forall j :: i <= j < |chunks| ==> chunks[j].Is(metas[j], true)
    {
      if good { CountablePrefix(metas, i + 1); }
      AddAllMore(metas, i);
      NotYet(merged, chunks, i);
      ghost var before := merged;
      merged, failed := AddNext(merged, chunks[i], AddAll(metas[..i]), metas[i], good);
      if failed {
        return [], true;
      }
      FromFirstMore(before, merged, chunks, i);
      i := i + 1;
    }
    assert metas[..i] == metas;
    if Hold(merged, AddAll(metas), true) { HeldIsCountable(merged, AddAll(metas)); }
  }

  lemma HeldIsCountable(objects: seq<ChunkMeta>, chunks: seq<Meta>)
    requires Hold(objects, chunks, true)
    ensures Countable(chunks)
  {
    hide DecodeRun, ByteBits;
    forall i | 0 <= i < |chunks| ensures |chunks[i].samples| < COUNT_LIMIT { assert objects[i].Is(chunks[i], true); }
  }

  // The bytes behind the two chunks may be anything.
  method AddNext(merged: seq<ChunkMeta>, c: ChunkMeta, ghost out: seq<Meta>, ghost meta: Meta, ghost good: bool)
    returns (merged': seq<ChunkMeta>, failed: bool)
    requires merged != [] && Distinct(merged) && c !in merged && Hold(merged, out, good) && c.Is(meta, true)
    requires good ==> Countable(Add(out, meta))
    modifies merged
    ensures Distinct(merged') && merged' != [] && (forall o :: o in merged' ==> o in merged || o == c)
    ensures good ==> !failed
    ensures !failed ==> Hold(merged', Add(out, meta), good)
  {
    var past1: byte, past2: byte := *, *;
    hide Decoded, Add, Countable, Distinct;
    merged', failed := AddChunk(merged, c, past1, past2, out, meta, good);
  }

  ghost predicate FromFirst(merged: seq<ChunkMeta>, chunks: seq<ChunkMeta>, i: nat)
  {
    i <= |chunks| && forall o :: o in merged ==> o in chunks[..i]
  }

  lemma FromFirstOne(chunks: seq<ChunkMeta>)
    requires chunks != []
    ensures Distinct([chunks[0]]) && FromFirst([chunks[0]], chunks, 1)
  {
  }

  lemma NotYet(merged: seq<ChunkMeta>, chunks: seq<ChunkMeta>, i: nat)
    requires Distinct(chunks) && FromFirst(merged, chunks, i)
    ensures forall j :: i <= j < |chunks| ==> chunks[j] !in merged
    ensures forall k :: 0 <= k < |merged| ==> merged[k] in chunks
  {
    forall k | 0 <= k < |merged| ensures merged[k] in chunks { assert merged[k] in chunks[..i]; }
    forall j | i <= j < |chunks| ensures chunks[j] !in merged {
      assert chunks[j] !in chunks[..i];
    }
  }

  lemma FromFirstMore(merged: seq<ChunkMeta>, merged': seq<ChunkMeta>, chunks: seq<ChunkMeta>, i: nat)
    requires FromFirst(merged, chunks, i) && i < |chunks| && forall o :: o in merged' ==> o in merged || o == chunks[i]
    ensures FromFirst(merged', chunks, i + 1)
  {
    assert chunks[..i + 1] == chunks[..i] + [chunks[i]];
  }

  lemma FewUnchanged(chunks: seq<Meta>)
    ensures |chunks| < 2 ==> AddAll(chunks) == chunks
  {
  }

  lemma AddAllOne(chunks: seq<Meta>)
    requires chunks != []
    ensures AddAll(chunks[..1]) == [chunks[0]]
  {
  }

  lemma AddAllMore(chunks: seq<Meta>, i: nat)
    requires i < |chunks|
    ensures AddAll(chunks[..i + 1]) == Add(AddAll(chunks[..i]), chunks[i])
  {
    assert chunks[..i + 1][..i] == chunks[..i];
  }
}
