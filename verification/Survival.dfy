/**
  From appended samples to stored chunks: what a series hands to the store can be decoded from the
  store for as long as the store keeps it.
*/
module Survival {
  import opened Words
  import opened Headers
  import opened XorCodec
  import opened XorChunks
  import opened Slabs
  import opened SlabSteps
  import opened SlabRuns
  import opened SlabQueues
  import opened Handovers
  import HeadSeries

  // A chunk decodes the same whatever follows it.
  lemma LongerDecodes(a: seq<byte>, b: seq<byte>)
    requires |a| >= 2 && a <= b && Decoded(a).Some?
    ensures Decoded(b) == Decoded(a)
  {
    hide DecodeRun, ByteBits;
    var rest := b[|a|..];
    assert b == a + rest && b[2..] == a[2..] + rest;
    ByteBitsConcat(a[2..], rest);
    RunStable(FRESH_READER, 0, CountOf(a, 0), ByteBits(a[2..]), ByteBits(rest));
  }

  lemma StoredDecodes(chunk: seq<byte>, value: seq<byte>)
    requires Stores(chunk, value) && VALUE_HEADER_SIZE + 2 <= |value| <= |chunk| && Decoded(value[VALUE_HEADER_SIZE..]).Some?
    ensures Decoded(chunk[VALUE_HEADER_SIZE..]) == Decoded(value[VALUE_HEADER_SIZE..])
  {
    hide Decoded;
    assert value[VALUE_HEADER_SIZE..] <= chunk[VALUE_HEADER_SIZE..];
    LongerDecodes(value[VALUE_HEADER_SIZE..], chunk[VALUE_HEADER_SIZE..]);
  }

  // The put may be issued, is stored, and its value fits the slot it is written to.
  ghost predicate Accepted(b: State, cfg: Config, put: Op)
    requires Good(b, cfg)
  {
    && put.PutOp?
    && Admissible(b, put.source, put.metric, put.start, put.end, put.value)
    && var (t, o) := Put(b, cfg, put.source, put.metric, put.start, put.end, put.value);
       o == Stored && t.recs != [] && |put.value| <= |t.recs[|t.recs| - 1].item.chunk|
  }

  // After the calls, record i decodes to the samples. Its bytes are in memory or on disk and found
  // through the index; or a flush has taken back its disk slab, after a migration had handed that
  // slab over and the LSM tree had got the bytes.
  ghost predicate Survives(s: State, cfg: Config, ops: seq<Op>, i: nat, samples: seq<Sample>)
    requires Good(s, cfg)
  {
    var t := Exec(s, cfg, ops);
    && i < |t.recs| && DecodesTo(t.recs[i].item.chunk, samples)
    && (!t.recs[i].recycled ==>
          && Retrievable(t, t.recs[i]) && FindableByEnd(t, t.recs[i])
          && (PlainRows(s) && NoPoints(ops) ==> Findable(t, t.recs[i])))
    && (t.recs[i].recycled ==>
          && (exists j: nat :: TookBack(s, cfg, ops, j, i))
          && (exists j: nat :: WrittenAt(s, cfg, ops, j, i, t.recs[i].item)))
  }

  predicate DecodesTo(chunk: seq<byte>, samples: seq<Sample>)
  {
    |chunk| >= VALUE_HEADER_SIZE + 2 && Decoded(chunk[VALUE_HEADER_SIZE..]) == Some(samples)
  }

  // Any calls, an accepted put of a chunk of these samples, any calls after it: the samples
  // survive.
  lemma SamplesSurvive(s: State, cfg: Config, ops: seq<Op>, put: Op, more: seq<Op>, samples: seq<Sample>)
    requires Good(s, cfg) && s.recs == [] && Accepted(Exec(s, cfg, ops), cfg, put)
    requires DecodesTo(put.value, samples)
    ensures Survives(s, cfg, ops + [put] + more, |Exec(s, cfg, ops).recs|, samples)
  {
    hide Good, Decoded, Admissible, Put;
    var b := Exec(s, cfg, ops);
    PutKeeps(b, cfg, put.source, put.metric, put.start, put.end, put.value);
    assert (ops + [put])[..|ops + [put]| - 1] == ops;
    var a, i := Exec(s, cfg, ops + [put]), |b.recs|;
    assert a == Put(b, cfg, put.source, put.metric, put.start, put.end, put.value).0;
    StoredDecodes(a.recs[i].item.chunk, put.value);
    var all := ops + [put] + more;
    hide Exec, Retrievable, TookBack, Findable, FindableByEnd, PlainRows, WrittenAt;
    RecordsStay(s, cfg, ops + [put], more, i);
    NothingLost(s, cfg, all, i);
    EveryChunkFindable(s, cfg, all, i);
    if Exec(s, cfg, all).recs[i].recycled { GivenUpOnlyAfterWritten(s, cfg, all, i); }
  }

  lemma {:induction false} StoredParts(chunks: seq<Chunk>, i: nat)
    requires HeadSeries.Stored(chunks).Some? && i < |chunks|
    ensures Contents(chunks[i]).Some?
  {
    hide Contents;
    var n := |chunks| - 1;
    if i < n { StoredParts(chunks[..n], i); }
  }

  // What a series hands over is fit to be put: a chunk of one size, headed with the series' own ids,
  // that decodes to the samples the series had in it.
  lemma HandedOverIsFit(h: HeadSeries.TreeMemSeries, i: nat)
    requires h.Valid() && i < |h.handed|
    ensures |h.handed[i]| == h.chunkSize >= VALUE_HEADER_SIZE + 2
    ensures HeaderSeries(h.handed[i]) == (h.sourceId, h.metricId)
    ensures var c := HeadSeries.Run(h.chunkSize, h.history).flushed;
            i < |c| && Contents(c[i]).Some? && DecodesTo(h.handed[i], Contents(c[i]).value)
  {
    hide HeadSeries.Run, Contents, Decoded, DecodeRun, ByteBits, ValueHeader, HeaderSeries, PayloadOf, Shaped;
    var run := HeadSeries.Run(h.chunkSize, h.history);
    var S, r := HeadSeries.RunInvariant(h.chunkSize, h.history);
    assert HeadSeries.Represents(h.handed[i], run.flushed[i], h.chunkSize);
    StoredParts(run.flushed, i);
    HeadSeries.RepresentsDecodes(h.handed[i], run.flushed[i], h.chunkSize);
    var header := ValueHeader(h.sourceId, h.metricId);
    HeaderRoundTrip(h.sourceId, h.metricId, h.handed[i][VALUE_HEADER_SIZE..]);
    assert h.handed[i] == header + h.handed[i][VALUE_HEADER_SIZE..];
  }

  // The puts a series makes ////////////////////////////////////////////////////////////////////

  // The put of the i-th chunk a series hands over.
  ghost predicate HandedPut(h: HeadSeries.TreeMemSeries, i: nat, op: Op)
    reads h
  {
    && op.PutOp? && i < |h.handed| && i < |h.ranges| && (op.source, op.metric) == (h.sourceId, h.metricId)
    && (op.start, op.end) == h.ranges[i] && op.value == h.handed[i]
  }

  // A series whose sample times increase and are not negative.
  ghost predicate Forward(h: HeadSeries.TreeMemSeries)
    reads h, h.chunk, h.appender, h.appender.bstream
  {
    h.Valid() && HeadSeries.Increasing(h.history) && forall i :: 0 <= i < |h.history| ==> h.history[i].t >= 0
  }

  lemma ForwardRanges(h: HeadSeries.TreeMemSeries)
    requires Forward(h)
    ensures |h.ranges| == |h.handed| && HeadSeries.Disjoint(h.ranges)
    ensures forall i :: 0 <= i < |h.ranges| ==> h.ranges[i].0 >= 0
  {
    hide HeadSeries.Run, HeadSeries.BookRun;
    HeadSeries.RangesFollow(h.chunkSize, h.history);
    HeadSeries.RangesNatural(h.chunkSize, h.history);
  }

  // After the chunks before the i-th, the i-th may be put.
  lemma HandedOverIsAdmissible(h: HeadSeries.TreeMemSeries, i: nat, op: Op, s: State)
    requires Forward(h) && HandedPut(h, i, op) && InRange(h.sourceId, h.metricId)
    requires Behind(h, s.clock, i)
    ensures Admissible(s, op.source, op.metric, op.start, op.end, op.value)
  {
    ForwardRanges(h);
    HandedOverIsFit(h, i);
    hide HeadSeries.Run, HeadSeries.BookRun, HeaderSeries;
  }

  // A call sets the clock of a series only by a put of the series, to the end of its chunk.
  lemma ClockAfter(s: State, cfg: Config, op: Op)
    requires Good(s, cfg)
    ensures var t := Do(s, cfg, op);
            t.clock == s.clock || (op.PutOp? && t.clock == s.clock[(op.source, op.metric) := op.end])
  {
    hide Good, Put, Flush, MigrateStep, Admissible;
    match op
    case PutOp(source, metric, start, end, value) =>
      if Admissible(s, source, metric, start, end, value) { PutClock(s, cfg, source, metric, start, end, value); }
    case FlushOp => FlushClock(s, cfg);
    case MigrateOp => MigrateClock(s, cfg);
  }

  lemma PutClock(s: State, cfg: Config, source: nat, metric: nat, start: nat, end: nat, value: seq<byte>)
    requires Good(s, cfg) && Admissible(s, source, metric, start, end, value)
    ensures var t := Put(s, cfg, source, metric, start, end, value).0; t.clock == s.clock || t.clock == s.clock[(source, metric) := end]
  {
    var c := Class(source, metric);
    GoodRoles(s, cfg);
    hide Good, RolesOk, Put, Admissible, Acquire, Class, SlabFor, PutInto;
    PutQueues(s, cfg, source, metric, start, end, value);
    AcquireGood(s, cfg, c);
    if Acquire(s, c).Some? {
      RoomToWrite(Acquire(s, c).value, cfg, c);
      PutState(s, cfg, source, metric, start, end, value, Acquire(s, c).value);
    } else {
      PutRefused(s, cfg, source, metric, start, end, value);
    }
  }

  lemma FlushClock(s: State, cfg: Config)
    requires Good(s, cfg)
    ensures Flush(s, cfg).0.clock == s.clock
  {
    if Flush(s, cfg).1 {
      hide Good, Flush;
      FlushQueues(s, cfg);
      hide BatchCount, Supplied, MemBatch, DiskBatch;
    } else {
      hide Good, Flushed;
    }
  }

  lemma MigrateClock(s: State, cfg: Config)
    requires Good(s, cfg)
    ensures MigrateStep(s, cfg).0.clock == s.clock
  {
    MigrateStepGood(s, cfg);
    hide Good, Migrates;
  }

  // Every put of the series in the run is one of its first n chunks.
  ghost predicate OwnPuts(h: HeadSeries.TreeMemSeries, ops: seq<Op>, n: nat)
    reads h
  {
    forall j :: 0 <= j < |ops| && ops[j].PutOp? && (ops[j].source, ops[j].metric) == (h.sourceId, h.metricId) ==>
      exists i: nat :: i < n && HandedPut(h, i, ops[j])
  }

  // The puts of the front of the run, and the end of the last one.
  lemma OwnPutsLast(h: HeadSeries.TreeMemSeries, ops: seq<Op>, n: nat)
    requires Forward(h) && OwnPuts(h, ops, n) && ops != [] && n <= |h.handed|
    ensures OwnPuts(h, ops[..|ops| - 1], n) && |h.ranges| == |h.handed|
    ensures var op := ops[|ops| - 1];
            op.PutOp? && (op.source, op.metric) == (h.sourceId, h.metricId) ==> 0 < n && op.end <= h.ranges[n - 1].1
  {
    ForwardRanges(h);
    hide Forward;
    var k := |ops| - 1;
    forall j | 0 <= j < k && ops[..k][j].PutOp? && (ops[..k][j].source, ops[..k][j].metric) == (h.sourceId, h.metricId)
      ensures exists i: nat :: i < n && HandedPut(h, i, ops[..k][j])
    {
      assert ops[..k][j] == ops[j];
    }
    if ops[k].PutOp? && (ops[k].source, ops[k].metric) == (h.sourceId, h.metricId) {
      var i: nat :| i < n && HandedPut(h, i, ops[k]);
      assert i < n - 1 ==> h.ranges[i].1 < h.ranges[n - 1].0 <= h.ranges[n - 1].1;
    }
  }

  // The clock of the series is not past the listed end of its first n chunks.
  predicate Behind(h: HeadSeries.TreeMemSeries, clock: map<(nat, nat), nat>, n: nat)
    reads h
  {
    var series: (nat, nat) := (h.sourceId, h.metricId);
    series in clock ==> 0 < n <= |h.ranges| && clock[series] <= h.ranges[n - 1].1
  }

  lemma {:induction false} ClockBehind(h: HeadSeries.TreeMemSeries, s: State, cfg: Config, ops: seq<Op>, n: nat)
    requires Forward(h) && Good(s, cfg) && (h.sourceId, h.metricId) !in s.clock && OwnPuts(h, ops, n) && n <= |h.handed|
    ensures Behind(h, Exec(s, cfg, ops).clock, n)
  {
    hide Good, Do, Forward, Exec, OwnPuts;
    if ops == [] {
      ExecNone(s, cfg);
    } else {
      var k := |ops| - 1;
      OwnPutsLast(h, ops, n);
      ClockBehind(h, s, cfg, ops[..k], n);
      assert ops[..k] + [ops[k]] == ops;
      ExecMore(s, cfg, ops[..k], ops[k]);
      ClockAfter(Exec(s, cfg, ops[..k]), cfg, ops[k]);
    }
  }

  // In any run whose puts of the series are of its earlier chunks, in whatever order and however often
  // they are repeated, the put of its next chunk may be issued.
  lemma NextPutAdmissible(h: HeadSeries.TreeMemSeries, s: State, cfg: Config, ops: seq<Op>, n: nat, op: Op)
    requires Forward(h) && InRange(h.sourceId, h.metricId) && Good(s, cfg) && (h.sourceId, h.metricId) !in s.clock
    requires OwnPuts(h, ops, n) && HandedPut(h, n, op)
    ensures Admissible(Exec(s, cfg, ops), op.source, op.metric, op.start, op.end, op.value)
  {
    hide Good, Exec, Forward;
    ClockBehind(h, s, cfg, ops, n);
    HandedOverIsAdmissible(h, n, op, Exec(s, cfg, ops));
  }
}
