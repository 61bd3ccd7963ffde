/**
  What the calls of the slab store do to its queues, and what follows for whole runs: how many
  slabs the flusher strands, when a put finds no item, and when a migration reads other slabs than
  the ones it hands over.
*/
module SlabQueues {
  import opened Words
  import opened Headers
  import opened Slabs
  import opened SlabSteps
  import opened SlabRuns

  // Put /////////////////////////////////////////////////////////////////////////////////////////

  predicate SameDisk(s: State, t: State)
  {
    && t.freeD == s.freeD && t.usedD == s.usedD && t.evictD == s.evictD && t.looseM == s.looseM && t.looseD == s.looseD
    && |t.mem| == |s.mem| && |t.disk| == |s.disk|
  }

  // The class now owns slab m, with so many items in it.
  predicate Acquired(s: State, t: State, c: (nat, nat), m: nat)
  {
    && SameDisk(s, t) && m < |t.mst| == |s.mst| && t.clock == s.clock && t.fullM == s.fullM
    && t.freeM == (if c in s.owner || s.freeM == [] then s.freeM else s.freeM[1..])
    && t.evictM == (if c in s.owner || s.freeM != [] || s.evictM == [] then s.evictM else s.evictM[1..])
    && t.owner == s.owner[c := m]
    && t.mst[m].nalloc == (if c in s.owner then s.mst[m].nalloc else 0)
  }

  lemma AcquireQueues(s: State, cfg: Config, c: (nat, nat))
    requires Good(s, cfg) && RolesOk(s) && SlabFor(s, c).Some?
    ensures Acquire(s, c).Some? && Acquired(s, Acquire(s, c).value, c, SlabFor(s, c).value)
  {
    hide Queue, Pairs, Owners, Loose, IndexOk, DiskOk, PairedOk, LostOk, DataOk, ItemsOk, RoomOk, Repoint, MarkEvicted;
    if c in s.owner {
      assert s.owner[c := s.owner[c]] == s.owner;
      OwnedBounds(s, c);
    } else if s.freeM != [] {
      QueuePop(s.freeM, s.mrole, MFree, MLoose);
      DescAt(s, cfg, s.freeM[0]);
    } else {
      PairsPop(s.evictM, s.mrole, MLoose);
    }
  }

  // A chunk of class c went into slab m.
  predicate PutInto(s: State, t: State, cfg: Config, c: (nat, nat), m: nat)
  {
    && SameDisk(s, t) && m < |t.mst| == |s.mst|
    && t.freeM == (if c in s.owner || s.freeM == [] then s.freeM else s.freeM[1..])
    && t.evictM == (if c in s.owner || s.freeM != [] || s.evictM == [] then s.evictM else s.evictM[1..])
    && var used := if c in s.owner then s.mst[m].nalloc else 0;
       && t.mst[m].nalloc == used + 1
       && t.owner == (if used + 1 == cfg.capacity then s.owner - {c} else s.owner[c := m])
       && t.fullM == (if used + 1 == cfg.capacity then s.fullM + [m] else s.fullM)
  }

  lemma FillsInto(s: State, a: State, t: State, u: State, cfg: Config, c: (nat, nat), m: nat)
    requires Acquired(s, a, c, m) && SameQueues(a, t) && |t.mem| == |a.mem| && |t.mst| == |a.mst| && t.mst[m].nalloc == a.mst[m].nalloc + 1
    requires t.owner[c] < |t.mrole|
    requires u == if t.mst[m].nalloc == cfg.capacity then Seal(t, c) else t
    ensures PutInto(s, u, cfg, c, m)
  {
    assert s.owner[c := m] - {c} == s.owner - {c};
  }

  lemma FilledQueues(a: State, cfg: Config, c: (nat, nat), fs: nat, fm: nat, start: nat, end: nat, value: seq<byte>)
    requires RolesOk(a) && c in a.owner && a.mst[a.owner[c]].nalloc < |a.mem[a.owner[c]]|
    ensures var m, t := a.owner[c], WriteAndList(a, c, fs, fm, start, end, value);
            && SameQueues(a, t) && |t.mem| == |a.mem| && |t.mst| == |a.mst| && m < |t.mst| == |t.mrole|
            && t.mst[m].nalloc == a.mst[m].nalloc + 1
  {
    hide Queue, Pairs, Loose, Listed, WriteAndList;
    FillFields(a, cfg, c, fs, fm, start, end, value);
  }

  lemma FilledClock(a: State, cfg: Config, source: nat, metric: nat, start: nat, end: nat, value: seq<byte>)
    requires var c := Class(source, metric); RolesOk(a) && c in a.owner && a.mst[a.owner[c]].nalloc < |a.mem[a.owner[c]]|
    requires InRange(source, metric)
    ensures WriteAndList(a, Class(source, metric), SourceQuotient(source), MetricQuotient(metric), start, end, value).clock
            == a.clock[(source, metric) := end]
  {
    hide Queue, Pairs, Loose, Listed, Reindexed, Overlay;
    var c := Class(source, metric);
    var m := a.owner[c];
    var w := Write(a, m, c, Item(start, Overlay(a.mem[m][a.mst[m].nalloc].chunk, value)));
    IdRoundTrip(source, metric, w.mst[m]);
  }

  // What a put does to queues, classes and clock.
  lemma PutQueues(s: State, cfg: Config, source: nat, metric: nat, start: nat, end: nat, value: seq<byte>)
    requires Good(s, cfg) && Admissible(s, source, metric, start, end, value)
    ensures var c, (t, o) := Class(source, metric), Put(s, cfg, source, metric, start, end, value);
            && SameDisk(s, t) && |t.mst| == |s.mst|
            && (o == Stored ==> SlabFor(s, c).Some? && PutInto(s, t, cfg, c, SlabFor(s, c).value) && t.clock == s.clock[(source, metric) := end])
  {
    var c, fs, fm := Class(source, metric), SourceQuotient(source), MetricQuotient(metric);
    assert InRange(source, metric);
    GoodRoles(s, cfg);
    AcquiresSlabFor(s, cfg, c);
    hide Good, Inv, RolesOk, Acquire, WriteAndList, Class, Admissible, SourceQuotient, MetricQuotient, SlabFor, Seal, Put, Acquired, PutInto, SameQueues;
    if SlabFor(s, c).Some? {
      AcquireQueues(s, cfg, c);
      var a, m := Acquire(s, c).value, SlabFor(s, c).value;
      AcquireGood(s, cfg, c);
      RoomToWrite(a, cfg, c);
      PutState(s, cfg, source, metric, start, end, value, a);
      FilledQueues(a, cfg, c, fs, fm, start, end, value);
      FilledClock(a, cfg, source, metric, start, end, value);
      var t := WriteAndList(a, c, fs, fm, start, end, value);
      AcquiredDisk(s, a, c, m);
      if m < |s.disk| {
        var u := Put(s, cfg, source, metric, start, end, value).0;
        SealKeepsClock(t, c);
        FillsInto(s, a, t, u, cfg, c, m);
        PutIntoDisk(s, u, cfg, c, m);
      }
    } else {
      PutRefused(s, cfg, source, metric, start, end, value);
    }
  }

  lemma AcquiredDisk(s: State, t: State, c: (nat, nat), m: nat)
    requires Acquired(s, t, c, m)
    ensures SameDisk(s, t) && |t.mst| == |s.mst| && t.clock == s.clock && m < |t.mst| && c in t.owner && t.owner[c] == m
  {
  }

  lemma PutIntoDisk(s: State, t: State, cfg: Config, c: (nat, nat), m: nat)
    requires PutInto(s, t, cfg, c, m)
    ensures SameDisk(s, t) && |t.mst| == |s.mst|
  {
  }

  lemma SealKeepsClock(t: State, c: (nat, nat))
    requires c in t.owner && t.owner[c] < |t.mrole|
    ensures Seal(t, c).clock == t.clock
  {
  }

  // What a put does to the index //////////////////////////////////////////////////////////////////

  // The row that lists the series in the slab its class owns, if there is one.
  function RowBefore(s: State, c: (nat, nat), fs: nat, fm: nat): (o: Option<Row>)
    requires c in s.owner ==> s.owner[c] < |s.mst|
  {
    if c !in s.owner then None
    else
      var rows := s.mst[s.owner[c]].rows;
      var i := FindRow(rows, fs, fm);
      if i < |rows| then Some(rows[i]) else None
  }

  // Where an entry leads after the class got a slab: one to a slab that is reused, to its copy.
  function RefAfter(s: State, c: (nat, nat), r: Ref): Ref
  {
    if c !in s.owner && s.freeM == [] && s.evictM != [] && r == Mem(s.evictM[0].0) then Disk(s.evictM[0].1) else r
  }

  ghost predicate Redirected(s: State, c: (nat, nat), index: map<Key, Ref>)
  {
    && (forall k :: k in index <==> k in s.index)
    && (forall k :: k in index ==> index[k] == RefAfter(s, c, s.index[k]))
  }

  // The entries that lead to a waiting slab are the indexed ones it lists.
  lemma LeadsToWaiting(s: State, m: nat, k: Key)
    requires RolesOk(s) && IndexOk(s) && m < |s.mst| && s.mrole[m].MEvict? && k in s.index
    ensures Lists(s.mst[m], k) <==> s.index[k] == Mem(m)
  {
    hide Queue, Pairs, Owners, Loose, Lists, LiveOk, ApartOk, ClockOk;
    assert EntryOk(s, k, s.index[k]);
  }

  lemma ReuseRedirects(s: State, cfg: Config, c: (nat, nat))
    requires RolesOk(s) && IndexOk(s) && c !in s.owner && s.freeM == [] && s.evictM != []
    requires s.evictM[0].0 < |s.mrole| == |s.mst| && s.mrole[s.evictM[0].0] == MEvict(s.evictM[0].1)
    ensures Redirected(s, c, Reuse(s, c).index)
  {
    hide RolesOk, IndexOk, Lists, MarkEvicted;
    forall k | k in s.index ensures Lists(s.mst[s.evictM[0].0], k) <==> s.index[k] == Mem(s.evictM[0].0) {
      LeadsToWaiting(s, s.evictM[0].0, k);
    }
  }

  lemma AcquireIndex(s: State, cfg: Config, c: (nat, nat))
    requires Good(s, cfg) && RolesOk(s) && Acquire(s, c).Some?
    ensures var a := Acquire(s, c).value;
            && Redirected(s, c, a.index) && c in a.owner && a.owner[c] < |a.mst| && (c in s.owner ==> s.owner[c] < |s.mst|)
            && a.mst[a.owner[c]].rows == (if c in s.owner then s.mst[a.owner[c]].rows else [])
  {
    hide Queue, Pairs, Loose, IndexOk, DiskOk, PairedOk, LostOk, DataOk, ItemsOk, RoomOk, Repoint, MarkEvicted;
    if c in s.owner {
      OwnedBounds(s, c);
    } else if s.freeM != [] {
      QueuePop(s.freeM, s.mrole, MFree, MLoose);
      DescAt(s, cfg, s.freeM[0]);
    } else {
      PairsPop(s.evictM, s.mrole, MLoose);
      ReuseRedirects(s, cfg, c);
    }
  }

  // The keys after a put: the end of the series comes, its start too if it was not listed, else its
  // former end goes.
  ghost predicate KeysAfter(index: map<Key, Ref>, index': map<Key, Ref>, series: (nat, nat), start: nat, end: nat, row: Option<Row>)
  {
    var first, last := Key(series.0, series.1, start), Key(series.0, series.1, end);
    match row
    case None => forall k :: k in index' <==> k == first || k == last || k in index
    case Some(r) => forall k :: k in index' <==> k == last || (k in index && k != Key(series.0, series.1, r.end))
  }

  lemma ReindexedMeans(index: map<Key, Ref>, d: Desc, fs: nat, fm: nat, start: nat, end: nat, r: Ref)
    requires var (source, metric) := SeriesOf(d, fs, fm); Key(source, metric, start) !in index && Key(source, metric, end) !in index
    ensures var i, index' := FindRow(d.rows, fs, fm), Reindexed(index, d, fs, fm, start, end, r);
            && KeysAfter(index, index', SeriesOf(d, fs, fm), start, end, if i < |d.rows| then Some(d.rows[i]) else None)
            && (forall k :: k in index' ==> index'[k] == if k in index then index[k] else r)
  {
  }

  // The rows after a put: those before, with the end of the series moved or a row of its own.
  predicate RowsAfter(rows: seq<Row>, rows': seq<Row>, fs: nat, fm: nat, start: nat, end: nat)
  {
    var i := FindRow(rows, fs, fm);
    && |rows'| == (if i < |rows| then |rows| else i + 1)
    && (rows'[i].fs, rows'[i].fm, rows'[i].start, rows'[i].end) == (fs, fm, if i < |rows| then rows[i].start else start, end)
    && (forall j :: 0 <= j < |rows| && j != i ==> rows'[j] == rows[j])
  }

  lemma FilledIndex(a: State, cfg: Config, source: nat, metric: nat, start: nat, end: nat, value: seq<byte>)
    requires var c := Class(source, metric); RolesOk(a) && c in a.owner && a.mst[a.owner[c]].nalloc < |a.mem[a.owner[c]]|
    requires InRange(source, metric)
    ensures var c, fs, fm := Class(source, metric), SourceQuotient(source), MetricQuotient(metric);
            var m, t := a.owner[c], WriteAndList(a, c, fs, fm, start, end, value);
            var d := a.mst[m].(cx := c.0, cy := c.1);
            && m < |t.mst| && RowsAfter(a.mst[m].rows, t.mst[m].rows, fs, fm, start, end)
            && SeriesOf(d, fs, fm) == (source, metric) && t.index == Reindexed(a.index, d, fs, fm, start, end, Mem(m))
  {
    hide Queue, Pairs, Loose, Overlay;
    var c := Class(source, metric);
    IdRoundTrip(source, metric, a.mst[a.owner[c]].(cx := c.0, cy := c.1));
  }

  lemma NotYetIndexed(s: State, cfg: Config, source: nat, metric: nat, t: nat)
    requires Good(s, cfg) && ((source, metric) in s.clock ==> s.clock[(source, metric)] < t)
    ensures Key(source, metric, t) !in s.index
  {
    hide IndexOk, DiskOk, PairedOk, DataOk, ItemsOk, DescsOk;
    FreshKey(s, Key(source, metric, t));
  }

  // What a stored put does to descriptor and index: the series is listed in the slab up to the new end,
  // from where it was listed before or from the new start; the index has its end, and its start if it
  // is new, under the slab, its former end no more, and all else as before, with the entries of a slab
  // that was reused leading to its copy.
  ghost predicate IndexedPut(s: State, t: State, source: nat, metric: nat, start: nat, end: nat)
  {
    var c, fs, fm := Class(source, metric), SourceQuotient(source), MetricQuotient(metric);
    && SlabFor(s, c).Some? && (c in s.owner ==> s.owner[c] < |s.mst|)
    && var m, row := SlabFor(s, c).value, RowBefore(s, c, fs, fm);
       && m < |t.mst| && RowsAfter(if c in s.owner then s.mst[s.owner[c]].rows else [], t.mst[m].rows, fs, fm, start, end)
       && KeysAfter(s.index, t.index, (source, metric), start, end, row)
       && (forall k :: k in t.index ==> t.index[k] == if k in s.index then RefAfter(s, c, s.index[k]) else Mem(m))
  }

  lemma PutIndexed(s: State, cfg: Config, source: nat, metric: nat, start: nat, end: nat, value: seq<byte>)
    requires Good(s, cfg) && Admissible(s, source, metric, start, end, value)
    requires Put(s, cfg, source, metric, start, end, value).1 == Stored
    ensures IndexedPut(s, Put(s, cfg, source, metric, start, end, value).0, source, metric, start, end)
  {
    var c, fs, fm := Class(source, metric), SourceQuotient(source), MetricQuotient(metric);
    assert InRange(source, metric) && Timely(s.clock, (source, metric), start, end);
    GoodRoles(s, cfg);
    AcquiresSlabFor(s, cfg, c);
    NotYetIndexed(s, cfg, source, metric, start);
    NotYetIndexed(s, cfg, source, metric, end);
    hide Good, Inv, RolesOk, Acquire, WriteAndList, Class, Admissible, SourceQuotient, MetricQuotient, SlabFor, Put, RowsAfter, Reindexed, Redirected, IndexedPut;
    if SlabFor(s, c) == None { PutRefused(s, cfg, source, metric, start, end, value); }
    var a, m := Acquire(s, c).value, SlabFor(s, c).value;
    AcquireIndex(s, cfg, c);
    AcquireGood(s, cfg, c);
    RoomToWrite(a, cfg, c);
    PutState(s, cfg, source, metric, start, end, value, a);
    FilledIndex(a, cfg, source, metric, start, end, value);
    IndexedAfter(s, a, Put(s, cfg, source, metric, start, end, value).0, source, metric, start, end);
  }

  lemma IndexedAfter(s: State, a: State, t: State, source: nat, metric: nat, start: nat, end: nat)
    requires Key(source, metric, start) !in s.index && Key(source, metric, end) !in s.index
    requires var c, fs, fm := Class(source, metric), SourceQuotient(source), MetricQuotient(metric);
             && SlabFor(s, c).Some? && (c in s.owner ==> s.owner[c] < |s.mst|)
             && var m := SlabFor(s, c).value;
                && Redirected(s, c, a.index) && m < |a.mst| && m < |t.mst|
                && a.mst[m].rows == (if c in s.owner then s.mst[m].rows else [])
                && RowsAfter(a.mst[m].rows, t.mst[m].rows, fs, fm, start, end)
                && var d := a.mst[m].(cx := c.0, cy := c.1);
                   SeriesOf(d, fs, fm) == (source, metric) && t.index == Reindexed(a.index, d, fs, fm, start, end, Mem(m))
    ensures IndexedPut(s, t, source, metric, start, end)
  {
    hide Class, SourceQuotient, MetricQuotient, RowsAfter, Reindexed, RefAfter, FindRow, KeysAfter, SeriesOf;
    var c, fs, fm := Class(source, metric), SourceQuotient(source), MetricQuotient(metric);
    var m := SlabFor(s, c).value;
    ReindexedMeans(a.index, a.mst[m].(cx := c.0, cy := c.1), fs, fm, start, end, Mem(m));
    NothingListed(fs, fm);
    KeysRedirected(s.index, a.index, t.index, (source, metric), start, end, RowBefore(s, c, fs, fm));
  }

  lemma NothingListed(fs: nat, fm: nat)
    ensures FindRow([], fs, fm) == 0
  {
  }

  lemma KeysRedirected(index: map<Key, Ref>, index': map<Key, Ref>, index'': map<Key, Ref>, series: (nat, nat), start: nat, end: nat, row: Option<Row>)
    requires (forall k :: k in index' <==> k in index) && KeysAfter(index', index'', series, start, end, row)
    ensures KeysAfter(index, index'', series, start, end, row)
  {
  }

  // Flush ///////////////////////////////////////////////////////////////////////////////////////

  // A batch of `count` slabs was written.
  predicate BatchMoved(s: State, t: State, count: nat)
  {
    && Supplied(s, count)
    && var num, ms, ds := FromFree(s, count), MemBatch(s, count), DiskBatch(s, count);
       var k := Covered(ms);
       && t.owner == s.owner && t.freeM == s.freeM && t.mst == s.mst && t.clock == s.clock
       && t.fullM == s.fullM[count..] && t.freeD == s.freeD[num..] && t.evictD == s.evictD[count - num..]
       && t.evictM == s.evictM + Zip(ms[..k], ds[..k]) && t.usedD == s.usedD + ds[..k]
  }

  lemma FlushQueues(s: State, cfg: Config)
    requires Good(s, cfg) && Flush(s, cfg).1
    ensures BatchMoved(s, Flush(s, cfg).0, BatchCount(s, cfg))
  {
    var count := BatchCount(s, cfg);
    hide Good, Flush, Flushed, BatchCount, Supplied, MemBatch, DiskBatch;
    GoodRoles(s, cfg);
    GoodMid(s, cfg);
    hide Mid, RolesOk;
    FlushIs(s, cfg);
    FlushedQueues(s, cfg, count);
  }

  // The memory slabs ms were written to the disk slabs ds: as many full slabs as a batch has, or all
  // there are, oldest first; free disk slabs as far as they go, then the head of the evictable ones; both
  // in the order of their ids. A last memory slab that stands after a gap is left out.
  ghost predicate Batch(s: State, t: State, cfg: Config, ms: seq<nat>, ds: seq<nat>, num: nat)
  {
    var count := |ms|;
    && count == |ds| && count <= |s.fullM| && count <= cfg.batch && (count == |s.fullM| || count == cfg.batch)
    && num <= count && num <= |s.freeD| && (num == count || num == |s.freeD|) && count - num <= |s.evictD|
    && Ascending(ms) && Elems(ms) == Elems(s.fullM[..count])
    && Ascending(ds) && Elems(ds) == Elems(s.freeD[..num] + s.evictD[..count - num])
    && t.fullM == s.fullM[count..] && t.freeD == s.freeD[num..] && t.evictD == s.evictD[count - num..]
    && var k := if count >= 2 && ms[count - 1] != ms[count - 2] + 1 then count - 1 else count;
       t.evictM == s.evictM + Zip(ms[..k], ds[..k]) && t.usedD == s.usedD + ds[..k]
  }

  // What a flush does: it writes such a batch; or, when there are full slabs and enough of either kind
  // but too few disk slabs for the batch, it moves the full slabs it had taken to the end of their queue;
  // or nothing.
  lemma FlushBatch(s: State, cfg: Config)
    requires Good(s, cfg)
    ensures var (t, wrote) := Flush(s, cfg);
            if wrote then exists ms, ds, num: nat :: Batch(s, t, cfg, ms, ds, num)
            else if s.fullM == [] || (|s.fullM| < cfg.batch && |s.freeD| + |s.evictD| < cfg.batch) then t == s
            else
              var count := if cfg.batch <= |s.fullM| then cfg.batch else |s.fullM|;
              t == s.(fullM := s.fullM[count..] + s.fullM[..count])
  {
    hide Inv, RoomOk, ItemsOk, Flushed;
    FlushGood(s, cfg);
    if Flush(s, cfg).1 {
      FlushQueues(s, cfg);
      hide Good, Flush;
      GoodRoles(s, cfg);
      var count := BatchCount(s, cfg);
      BatchIs(s, Flush(s, cfg).0, cfg, count);
      assert Batch(s, Flush(s, cfg).0, cfg, MemBatch(s, count), DiskBatch(s, count), FromFree(s, count));
    }
  }

  lemma BatchIs(s: State, t: State, cfg: Config, count: nat)
    requires RolesOk(s) && count == BatchCount(s, cfg) && BatchMoved(s, t, count) && s.n.freeD == |s.freeD|
    ensures FromFree(s, count) >= 0 && Supplied(s, count)
    ensures Batch(s, t, cfg, MemBatch(s, count), DiskBatch(s, count), FromFree(s, count))
  {
    var num := FromFree(s, count);
    FullsApart(s, count);
    BatchesApart(s, num, count - num);
    hide Sort, Ascending, Elems, RolesOk;
    SortAscending(s.fullM[..count]);
    SortAscending(s.freeD[..num] + s.evictD[..count - num]);
  }

  lemma FullsApart(s: State, count: nat)
    requires RolesOk(s) && count <= |s.fullM|
    ensures NoDup(s.fullM[..count])
  {
    hide Pairs, Owners, Loose;
  }

  lemma FlushedQueues(s: State, cfg: Config, count: nat)
    requires RolesOk(s) && Mid(s, cfg) && Supplied(s, count)
    ensures BatchMoved(s, Flushed(s, count), count)
  {
    assert count <= |s.fullM|;
    hide Inv, RolesOk, Mid, Supplied, CountersOk, TakenOk, Transferred, Taken, Transfers, BatchMoved;
    hide MemBatch, DiskBatch, CanTransfer, Covered, Elems, Ascending, FromFree;
    TakenSpec(s, cfg, count);
    var a, ms, ds := Taken(s, count), MemBatch(s, count), DiskBatch(s, count);
    BatchesReady(s, a, count);
    CoveredBound(ms);
    TransfersSpec(a, cfg, ms, ds, Covered(ms));
    MovesBatch(s, a, Transfers(a, ms, ds, Covered(ms)), count);
  }

  lemma MovesBatch(s: State, a: State, u: State, count: nat)
    requires Supplied(s, count) && TakenOk(s, a, count) && |MemBatch(s, count)| == |DiskBatch(s, count)|
    requires var ms, ds := MemBatch(s, count), DiskBatch(s, count); var k := Covered(ms); k <= |ms| && Transferred(a, u, ms[..k], ds[..k])
    ensures BatchMoved(s, Settle(u, count), count)
  {
    hide Elems, FromFree, MemBatch, DiskBatch;
  }

  // Stranded slabs /////////////////////////////////////////////////////////////////////////////

  // This call is a flush that writes a batch whose last id continues no other.
  ghost predicate Strands(s: State, cfg: Config, op: Op)
  {
    op.FlushOp? && Flush(s, cfg).1 && LastAlone(MemBatch(s, BatchCount(s, cfg)))
  }

  // How many calls of the run strand a slab.
  ghost function StrandCount(s: State, cfg: Config, ops: seq<Op>): nat
    requires Good(s, cfg)
  {
    if ops == [] then 0
    else
      var n := |ops| - 1;
      StrandCount(s, cfg, ops[..n]) + One(Strands(Exec(s, cfg, ops[..n]), cfg, ops[n]))
  }

  lemma PutLoose(s: State, cfg: Config, op: Op)
    requires Good(s, cfg) && !op.FlushOp?
    ensures Do(s, cfg, op).looseM == s.looseM && Do(s, cfg, op).looseD == s.looseD
  {
    hide Good, Put, MigrateStep, Admissible, PutInto, SlabFor;
    match op
    case PutOp(source, metric, start, end, value) =>
      if Admissible(s, source, metric, start, end, value) { PutQueues(s, cfg, source, metric, start, end, value); }
    case MigrateOp => MigrateLoose(s, cfg);
  }

  lemma MigrateLoose(s: State, cfg: Config)
    requires Good(s, cfg)
    ensures var t := MigrateStep(s, cfg).0; t.looseM == s.looseM && t.looseD == s.looseD && |t.mem| == |s.mem| && |t.disk| == |s.disk|
  {
    MigrateStepGood(s, cfg);
    hide Good, Migrates;
  }

  lemma FlushLoose(s: State, cfg: Config)
    requires Good(s, cfg)
    ensures var t, k := Do(s, cfg, FlushOp), One(Strands(s, cfg, FlushOp));
            s.looseM <= t.looseM && |t.looseM| == |s.looseM| + k && |t.looseD| == |s.looseD| + k
  {
    hide Good, Flush, LastAlone, MemBatch, Do, BatchCount;
    DoFlushes(s, cfg);
    if Flush(s, cfg).1 {
      FlushStrands(s, cfg);
    } else {
      IdleFlushLoose(s, cfg);
    }
  }

  lemma IdleFlushLoose(s: State, cfg: Config)
    requires !Flush(s, cfg).1
    ensures Flush(s, cfg).0.looseM == s.looseM && Flush(s, cfg).0.looseD == s.looseD
  {
    hide Flushed;
  }

  // Every flush that writes a batch whose last id continues no other takes one memory slab and
  // one disk slab out of use for good, and nothing else does.
  lemma {:induction false} StrandedForGood(s: State, cfg: Config, ops: seq<Op>)
    requires Good(s, cfg)
    ensures var t, k := Exec(s, cfg, ops), StrandCount(s, cfg, ops);
            s.looseM <= t.looseM && |t.looseM| == |s.looseM| + k && |t.looseD| == |s.looseD| + k
  {
    hide Good, Do, Strands;
    if ops != [] {
      var n := |ops| - 1;
      StrandedForGood(s, cfg, ops[..n]);
      var t := Exec(s, cfg, ops[..n]);
      if ops[n].FlushOp? {
        FlushLoose(t, cfg);
      } else {
        PutLoose(t, cfg, ops[n]);
        NoFlushNoStrand(t, cfg, ops[n]);
      }
    }
  }

  lemma NoFlushNoStrand(s: State, cfg: Config, op: Op)
    requires !op.FlushOp?
    ensures !Strands(s, cfg, op)
  {
  }

  lemma {:induction false} CountsStrands(s: State, cfg: Config, ops: seq<Op>)
    requires Good(s, cfg)
    ensures StrandCount(s, cfg, ops) == 0 <==> forall j :: 0 <= j < |ops| ==> !Strands(Exec(s, cfg, ops[..j]), cfg, ops[j])
  {
    hide Good, Strands, Exec;
    if ops != [] {
      var n := |ops| - 1;
      CountsStrands(s, cfg, ops[..n]);
      assert forall j :: 0 <= j < n ==> ops[..n][..j] == ops[..j];
      assert forall j :: 0 <= j < n ==> ops[..n][j] == ops[j];
    }
  }

  // No slab is ever out of every queue between calls exactly when no flush that wrote a batch had a
  // last id that continues no other.
  lemma NothingStranded(s: State, cfg: Config, ops: seq<Op>)
    requires Good(s, cfg) && s.looseM == {} && s.looseD == {}
    ensures var t := Exec(s, cfg, ops);
            t.looseM == {} && t.looseD == {} <==> forall j :: 0 <= j < |ops| ==> !Strands(Exec(s, cfg, ops[..j]), cfg, ops[j])
  {
    hide Good, Strands, Exec, StrandCount;
    StrandedForGood(s, cfg, ops);
    CountsStrands(s, cfg, ops);
  }

  // Puts without an item //////////////////////////////////////////////////////////////////////

  lemma FlushSizes(s: State, cfg: Config)
    requires Good(s, cfg)
    ensures |Flush(s, cfg).0.mem| == |s.mem| && |Flush(s, cfg).0.disk| == |s.disk|
  {
    var count := BatchCount(s, cfg);
    if Flush(s, cfg).1 {
      FlushIs(s, cfg);
      GoodMid(s, cfg);
      GoodRoles(s, cfg);
      hide Good, Mid, Flush, RolesOk;
      FlushedSizes(s, cfg, count);
    } else {
      hide Good, Flushed;
    }
  }

  lemma FlushedSizes(s: State, cfg: Config, count: nat)
    requires RolesOk(s) && Mid(s, cfg) && Supplied(s, count)
    ensures |Flushed(s, count).mem| == |s.mem| && |Flushed(s, count).disk| == |s.disk|
  {
    assert count <= |s.fullM|;
    hide Inv, RolesOk, Mid, Supplied, CountersOk, Taken, Transfers;
    hide MemBatch, DiskBatch, CanTransfer, Covered, Elems, Ascending, FromFree;
    TakenSpec(s, cfg, count);
    var a, ms, ds := Taken(s, count), MemBatch(s, count), DiskBatch(s, count);
    BatchesReady(s, a, count);
    CoveredBound(ms);
    TransfersSpec(a, cfg, ms, ds, Covered(ms));
    MidSizes(s, cfg);
    MidSizes(Transfers(a, ms, ds, Covered(ms)), cfg);
  }

  lemma {:induction false} SizesStay(s: State, cfg: Config, ops: seq<Op>)
    requires Good(s, cfg)
    ensures |Exec(s, cfg, ops).mem| == |s.mem| && |Exec(s, cfg, ops).disk| == |s.disk|
  {
    hide Good, Put, Flush, MigrateStep, Admissible, PutInto, SlabFor;
    if ops != [] {
      var n := |ops| - 1;
      SizesStay(s, cfg, ops[..n]);
      var t := Exec(s, cfg, ops[..n]);
      match ops[n]
      case PutOp(source, metric, start, end, value) =>
        if Admissible(t, source, metric, start, end, value) { PutQueues(t, cfg, source, metric, start, end, value); }
      case FlushOp => FlushSizes(t, cfg);
      case MigrateOp => MigrateLoose(t, cfg);
    }
  }

  // The call is a put that may be issued and finds no item to write to.
  ghost predicate FindsNoItem(s: State, cfg: Config, op: Op)
    requires Good(s, cfg)
  {
    && op.PutOp? && Admissible(s, op.source, op.metric, op.start, op.end, op.value)
    && Put(s, cfg, op.source, op.metric, op.start, op.end, op.value).1 == NoItem
  }

  ghost predicate AfterThen(s: State, cfg: Config, ops: seq<Op>, op: Op)
    requires Good(s, cfg)
  {
    FindsNoItem(Exec(s, cfg, ops), cfg, op)
  }

  lemma SlabForBounded(s: State, cfg: Config, c: (nat, nat))
    requires Good(s, cfg) && SlabFor(s, c).Some?
    ensures SlabFor(s, c).value < |s.mem|
  {
    hide Queue, Pairs, Owners, Loose, DescsOk, IndexOk, DiskOk, PairedOk, LostOk, DataOk, ItemsOk, RoomOk, CountersOk;
    if c in s.owner {
      OwnedBounds(s, c);
    } else if s.freeM != [] {
      QueuePop(s.freeM, s.mrole, MFree, MLoose);
    } else {
      PairsPop(s.evictM, s.mrole, MLoose);
    }
  }

  lemma EnoughDiskEnoughItems(s: State, cfg: Config, op: Op)
    requires Good(s, cfg) && |s.mem| <= |s.disk|
    ensures !FindsNoItem(s, cfg, op)
  {
    if op.PutOp? && Admissible(s, op.source, op.metric, op.start, op.end, op.value) {
      hide Good, Put, Admissible, SlabFor, Stores, Class;
      var c := Class(op.source, op.metric);
      if SlabFor(s, c).Some? { SlabForBounded(s, cfg, c); }
      PutKeeps(s, cfg, op.source, op.metric, op.start, op.end, op.value);
    }
  }

  lemma ExecMore(s: State, cfg: Config, ops: seq<Op>, op: Op)
    requires Good(s, cfg)
    ensures Exec(s, cfg, ops + [op]) == Do(Exec(s, cfg, ops), cfg, op)
  {
    hide Good, Do;
    assert (ops + [op])[..|ops|] == ops;
  }

  lemma ExecNone(s: State, cfg: Config)
    requires Good(s, cfg)
    ensures Exec(s, cfg, []) == s
  {
    hide Good;
  }

  // Puts of one series, one after the other ///////////////////////////////////////////////////

  function ZeroChunk(): seq<byte> { ValueHeader(0, 0) }

  function ZeroPut(time: nat): Op { PutOp(0, 0, time, time, ZeroChunk()) }

  // Nothing of series 0 of source 0 has come at this time or later.
  predicate Before(s: State, time: nat) { (0, 0) in s.clock ==> s.clock[(0, 0)] < time }

  lemma ZeroPutAdmissible(s: State, time: nat)
    requires Before(s, time)
    ensures Admissible(s, 0, 0, time, time, ZeroChunk())
  {
    HeaderRoundTrip(0, 0, []);
    assert ZeroChunk() + [] == ZeroChunk();
  }

  // Its effect.
  lemma ZeroPutQueues(s: State, cfg: Config, time: nat)
    requires Good(s, cfg) && Before(s, time) && SlabFor(s, (0, 0)).Some? && SlabFor(s, (0, 0)).value < |s.disk|
    ensures var t := Do(s, cfg, ZeroPut(time)); PutInto(s, t, cfg, (0, 0), SlabFor(s, (0, 0)).value) && Before(t, time + 1)
  {
    ZeroPutAdmissible(s, time);
    hide Good, Put, Admissible, SlabFor, PutInto, Stores, ZeroChunk;
    assert Class(0, 0) == (0, 0);
    PutKeeps(s, cfg, 0, 0, time, time, ZeroChunk());
    PutQueues(s, cfg, 0, 0, time, time, ZeroChunk());
  }

  function ZeroPuts(n: nat): seq<Op> { seq(n, i requires 0 <= i < n => ZeroPut(i)) }

  // k slabs are full, and the next one holds j items.
  predicate Stage(s: State, nm: nat, nd: nat, k: nat, j: nat, time: nat)
  {
    && |s.mem| == |s.mst| == nm && |s.disk| == nd && Before(s, time) && k <= nm
    && s.freeM == Ids(nm)[if j == 0 || k == nm then k else k + 1..] && s.evictM == []
    && s.owner == (if j == 0 then map[] else map[(0, 0) := k])
    && (j > 0 && k < nm ==> s.mst[k].nalloc == j)
  }

  lemma StageNext(s: State, t: State, cfg: Config, nm: nat, nd: nat, k: nat, j: nat, time: nat)
    requires Stage(s, nm, nd, k, j, time) && k < nd < nm && j < cfg.capacity
    requires PutInto(s, t, cfg, (0, 0), k) && Before(t, time + 1)
    ensures if j + 1 == cfg.capacity then Stage(t, nm, nd, k + 1, 0, time + 1) else Stage(t, nm, nd, k, j + 1, time + 1)
  {
    assert Ids(nm)[k..][1..] == Ids(nm)[k + 1..];
    assert map[(0, 0) := k][(0, 0) := k] == map[(0, 0) := k];
    var none: map<(nat, nat), nat> := map[];
    assert none[(0, 0) := k] == map[(0, 0) := k] && none - {(0, 0)} == none && map[(0, 0) := k] - {(0, 0)} == none;
  }

  lemma StageStart(cfg: Config, mem: seq<seq<Item>>, disk: seq<seq<Item>>)
    ensures Stage(Init(mem, disk), |mem|, |disk|, 0, 0, 0)
  {
    assert Ids(|mem|)[0..] == Ids(|mem|);
  }

  lemma StageSlab(s: State, nm: nat, nd: nat, k: nat, j: nat, time: nat)
    requires Stage(s, nm, nd, k, j, time) && k < nm
    ensures SlabFor(s, (0, 0)) == Some(k)
  {
  }

  // Enough puts reach every stage below the number of disk slabs.
  lemma {:induction false} StageReached(cfg: Config, mem: seq<seq<Item>>, disk: seq<seq<Item>>, k: nat, j: nat) returns (n: nat)
    requires ConfigOk(cfg) && Blank(cfg, mem) && Blank(cfg, disk) && Good(Init(mem, disk), cfg)
    requires |disk| < |mem| && j < cfg.capacity && (if j == 0 then k <= |disk| else k < |disk|)
    ensures Stage(Exec(Init(mem, disk), cfg, ZeroPuts(n)), |mem|, |disk|, k, j, n)
    decreases k, j
  {
    hide Good, Stage, Init, SlabFor, PutInto, Before, Exec, Do, Blank, ConfigOk;
    var s := Init(mem, disk);
    if k == 0 && j == 0 {
      n := 0;
      assert ZeroPuts(0) == [];
      ExecNone(s, cfg);
      StageStart(cfg, mem, disk);
    } else {
      var k', j' := if j > 0 then k else k - 1, if j > 0 then j - 1 else cfg.capacity - 1;
      var i := StageReached(cfg, mem, disk, k', j');
      n := i + 1;
      assert ZeroPuts(n) == ZeroPuts(i) + [ZeroPut(i)];
      ExecMore(s, cfg, ZeroPuts(i), ZeroPut(i));
      var t := Exec(s, cfg, ZeroPuts(i));
      StageSlab(t, |mem|, |disk|, k', j', i);
      StageTime(t, |mem|, |disk|, k', j', i);
      ZeroPutQueues(t, cfg, i);
      StageNext(t, Do(t, cfg, ZeroPut(i)), cfg, |mem|, |disk|, k', j', i);
    }
  }

  lemma StageTime(s: State, nm: nat, nd: nat, k: nat, j: nat, time: nat)
    requires Stage(s, nm, nd, k, j, time)
    ensures Before(s, time) && |s.disk| == nd
  {
  }

  lemma LastSlabHasNoItem(s: State, cfg: Config, nm: nat, nd: nat, time: nat)
    requires Good(s, cfg) && Stage(s, nm, nd, nd, 0, time) && nd < nm
    ensures FindsNoItem(s, cfg, ZeroPut(time))
  {
    StageSlab(s, nm, nd, nd, 0, time);
    ZeroPutAdmissible(s, time);
    assert |s.disk| == nd && Class(0, 0) == (0, 0);
    hide Good, Put, Admissible, SlabFor, Stores, ZeroChunk, Stage;
    PutKeeps(s, cfg, 0, 0, time, time, ZeroChunk());
  }

  // From the start, every put that may be issued finds an item to write to, whatever was called
  // before it, exactly when there are at least as many disk slabs as memory slabs.
  lemma PutsFindItems(cfg: Config, mem: seq<seq<Item>>, disk: seq<seq<Item>>)
    requires ConfigOk(cfg) && Blank(cfg, mem) && Blank(cfg, disk)
    ensures Good(Init(mem, disk), cfg)
    ensures (forall ops, op :: !AfterThen(Init(mem, disk), cfg, ops, op)) <==> |mem| <= |disk|
  {
    InitGood(cfg, mem, disk);
    var s := Init(mem, disk);
    assert |s.mem| == |mem| && |s.disk| == |disk|;
    hide Good, Exec, FindsNoItem, Stage, Init;
    if |mem| <= |disk| {
      forall ops, op ensures !AfterThen(s, cfg, ops, op) {
        SizesStay(s, cfg, ops);
        EnoughDiskEnoughItems(Exec(s, cfg, ops), cfg, op);
      }
    } else {
      var n := StageReached(cfg, mem, disk, |disk|, 0);
      LastSlabHasNoItem(Exec(s, cfg, ZeroPuts(n)), cfg, |mem|, |disk|, n);
      assert AfterThen(s, cfg, ZeroPuts(n), ZeroPut(n));
    }
  }

  // Runs as the program makes them ////////////////////////////////////////////////////////////

  // The constructor derives both batch sizes from the numbers of slabs.
  predicate Constructed(cfg: Config, mem: seq<seq<Item>>, disk: seq<seq<Item>>)
  {
    cfg.batch == |mem| / 6 && cfg.migrateBatch == |disk| / 10
  }

  // The background threads flush only while more than a batch of slabs is full, and migrate only
  // while more than a batch is used.
  predicate Guarded(s: State, cfg: Config, op: Op)
  {
    && (op.FlushOp? ==> s.n.fullM > cfg.batch)
    && (op.MigrateOp? ==> s.n.usedD > cfg.migrateBatch)
  }

  ghost predicate Driven(s: State, cfg: Config, ops: seq<Op>)
    requires Good(s, cfg)
  {
    forall j :: 0 <= j < |ops| ==> Guarded(Exec(s, cfg, ops[..j]), cfg, ops[j])
  }

  lemma DrivenMore(s: State, cfg: Config, ops: seq<Op>, op: Op)
    requires Good(s, cfg) && Driven(s, cfg, ops) && Guarded(Exec(s, cfg, ops), cfg, op)
    ensures Driven(s, cfg, ops + [op])
  {
    hide Good, Exec;
    var all := ops + [op];
    forall j | 0 <= j < |all| ensures Guarded(Exec(s, cfg, all[..j]), cfg, all[j]) {
      assert all[..j] == ops[..j];
      assert ops[..|ops|] == ops;
    }
  }

  // Two failures //////////////////////////////////////////////////////////////////////////////

  // The queues between calls of a run that puts one series into slabs of one item each.
  datatype Queues = Queues(freeM: seq<nat>, fullM: seq<nat>, evictM: seq<(nat, nat)>, freeD: seq<nat>, usedD: seq<nat>, evictD: seq<nat>,
                           looseM: set<nat>, time: nat)

  predicate At(s: State, q: Queues)
  {
    && s.owner == map[] && s.freeM == q.freeM && s.fullM == q.fullM && s.evictM == q.evictM
    && s.freeD == q.freeD && s.usedD == q.usedD && s.evictD == q.evictD && s.looseM == q.looseM && Before(s, q.time)
  }

  function AfterPut(q: Queues): Queues
    requires q.freeM != [] || q.evictM != []
  {
    if q.freeM != [] then q.(freeM := q.freeM[1..], fullM := q.fullM + [q.freeM[0]], time := q.time + 1)
    else q.(evictM := q.evictM[1..], fullM := q.fullM + [q.evictM[0].0], time := q.time + 1)
  }

  function Least(a: nat, b: nat): nat { if a <= b then a else b }

  // A flush of batch ms onto disk slabs ds.
  function AfterFlush(q: Queues, ms: seq<nat>, ds: seq<nat>): Queues
    requires |ms| == |ds| <= |q.fullM| && |ms| <= |q.freeD| + |q.evictD|
  {
    var num, k := Least(|ms|, |q.freeD|), Covered(ms);
    q.(fullM := q.fullM[|ms|..], evictM := q.evictM + Zip(ms[..k], ds[..k]), freeD := q.freeD[num..], evictD := q.evictD[|ms| - num..],
       usedD := q.usedD + ds[..k], looseM := if LastAlone(ms) then q.looseM + {ms[|ms| - 1]} else q.looseM)
  }

  predicate Flushes(q: Queues, cfg: Config, ms: seq<nat>, ds: seq<nat>)
  {
    && ms != [] && |ms| == |ds| == Least(cfg.batch, |q.fullM|) <= |q.freeD| + |q.evictD|
    && (cfg.batch <= |q.fullM| || cfg.batch <= |q.freeD| + |q.evictD|)
    && var num := Least(|ms|, |q.freeD|);
       ms == Sort(q.fullM[..|ms|]) && ds == Sort(q.freeD[..num] + q.evictD[..|ms| - num])
  }

  function AfterMigrate(q: Queues, cfg: Config): Queues
    requires cfg.nbuf <= |q.usedD|
  {
    q.(usedD := q.usedD[cfg.nbuf..], evictD := q.evictD + q.usedD[..cfg.nbuf])
  }

  lemma PutAt(s: State, cfg: Config, q: Queues)
    requires Good(s, cfg) && At(s, q) && cfg.capacity == 1 && |s.mem| <= |s.disk| && (q.freeM != [] || q.evictM != [])
    ensures At(Do(s, cfg, ZeroPut(q.time)), AfterPut(q))
  {
    SlabForBounded(s, cfg, (0, 0));
    hide Good, Do, ZeroPut;
    ZeroPutQueues(s, cfg, q.time);
  }

  lemma FlushAt(s: State, cfg: Config, q: Queues, ms: seq<nat>, ds: seq<nat>)
    requires Good(s, cfg) && At(s, q) && Flushes(q, cfg, ms, ds)
    ensures At(Do(s, cfg, FlushOp), AfterFlush(q, ms, ds))
  {
    hide Good, Flush, Do, LastAlone, Covered, Sort;
    FlushGood(s, cfg);
    DoFlushes(s, cfg);
    FlushQueues(s, cfg);
    FlushStrands(s, cfg);
    FromAll(s, cfg, |ms|);
  }

  lemma FromAll(s: State, cfg: Config, count: nat)
    requires Good(s, cfg)
    ensures FromFree(s, count) == Least(count, |s.freeD|)
  {
    hide Inv, ItemsOk, RoomOk;
  }

  lemma MigrateAt(s: State, cfg: Config, q: Queues)
    requires Good(s, cfg) && At(s, q) && cfg.nbuf <= |q.usedD| && cfg.migrateBatch <= |q.usedD|
    ensures At(Do(s, cfg, MigrateOp), AfterMigrate(q, cfg)) && MigrateStep(s, cfg).1 == Some(q.usedD[..cfg.nbuf])
  {
    MigrateStepGood(s, cfg);
    hide Good, Migrates;
  }

  // The run leads to these queues, in a store with a disk slab for every memory slab, and every call
  // of it is one that the program makes.
  ghost predicate Reaches(s: State, cfg: Config, ops: seq<Op>, q: Queues)
  {
    Good(s, cfg) && cfg.capacity == 1 && |s.mem| <= |s.disk| && Driven(s, cfg, ops) && At(Exec(s, cfg, ops), q)
  }

  lemma ThenPut(s: State, cfg: Config, ops: seq<Op>, q: Queues)
    requires Reaches(s, cfg, ops, q) && (q.freeM != [] || q.evictM != [])
    ensures Reaches(s, cfg, ops + [ZeroPut(q.time)], AfterPut(q))
  {
    hide Good, At, Exec, AfterPut, Driven;
    ExecMore(s, cfg, ops, ZeroPut(q.time));
    SizesStay(s, cfg, ops);
    DrivenMore(s, cfg, ops, ZeroPut(q.time));
    hide ZeroPut;
    PutAt(Exec(s, cfg, ops), cfg, q);
  }

  lemma ThenFlush(s: State, cfg: Config, ops: seq<Op>, q: Queues, ms: seq<nat>, ds: seq<nat>)
    requires Reaches(s, cfg, ops, q) && Flushes(q, cfg, ms, ds) && cfg.batch < |q.fullM|
    ensures Reaches(s, cfg, ops + [FlushOp], AfterFlush(q, ms, ds))
  {
    hide Good, At, Exec, AfterFlush, Driven;
    ExecMore(s, cfg, ops, FlushOp);
    Counts(Exec(s, cfg, ops), cfg, q);
    DrivenMore(s, cfg, ops, FlushOp);
    FlushAt(Exec(s, cfg, ops), cfg, q, ms, ds);
  }

  lemma ThenMigrate(s: State, cfg: Config, ops: seq<Op>, q: Queues)
    requires Reaches(s, cfg, ops, q) && cfg.nbuf <= |q.usedD| && cfg.migrateBatch < |q.usedD|
    ensures Reaches(s, cfg, ops + [MigrateOp], AfterMigrate(q, cfg))
  {
    hide Good, At, Exec, AfterMigrate, Driven;
    ExecMore(s, cfg, ops, MigrateOp);
    Counts(Exec(s, cfg, ops), cfg, q);
    DrivenMore(s, cfg, ops, MigrateOp);
    MigrateAt(Exec(s, cfg, ops), cfg, q);
  }

  lemma Counts(s: State, cfg: Config, q: Queues)
    requires Good(s, cfg) && At(s, q)
    ensures s.n.fullM == |q.fullM| && s.n.usedD >= |q.usedD|
  {
    hide Inv, ItemsOk, RoomOk;
  }

  lemma Starts(cfg: Config, mem: seq<seq<Item>>, disk: seq<seq<Item>>, q: Queues)
    requires ConfigOk(cfg) && cfg.capacity == 1 && Blank(cfg, mem) && Blank(cfg, disk) && |mem| <= |disk|
    requires q == Queues(Ids(|mem|), [], [], Ids(|disk|), [], [], {}, 0)
    ensures Reaches(Init(mem, disk), cfg, [], q)
  {
    InitGood(cfg, mem, disk);
    hide Good;
  }

  lemma SortTwo(a: nat, b: nat)
    requires a < b
    ensures Sort([a, b]) == [a, b] && Sort([b, a]) == [a, b]
  {
    assert Sort([b]) == [b] && Sort([a]) == [a];
    assert [a, b][1..] == [b] && [b, a][1..] == [a];
    assert [b][1..] == [];
  }

  lemma ReachesAt(s: State, cfg: Config, ops: seq<Op>, q: Queues)
    requires Reaches(s, cfg, ops, q)
    ensures Good(s, cfg) && Driven(s, cfg, ops) && At(Exec(s, cfg, ops), q)
  {
    hide Good, Exec, Driven;
  }

  // A store of 13 memory slabs and 15 disk slabs with one item each, and room for 3 slabs in the
  // buffer of the migrator.
  const SMALL: Config := Config(1, 2, 1, 3)

  function Times(op: Op, n: nat): seq<Op> { seq(n, _ => op) }

  // The first pairs are written to the disk slabs of the same ids.
  function Same(n: nat): seq<(nat, nat)> { Zip(Ids(n), Ids(n)) }

  // After i puts; after i flushes of two slabs each; after i migrations of three.
  function Filled13(i: nat): Queues
    requires i <= 13
  {
    Queues(Ids(13)[i..], Ids(i), [], Ids(15), [], [], {}, i)
  }

  function Flushed13(i: nat): Queues
    requires i <= 6
  {
    Queues([], Ids(13)[2 * i..], Same(2 * i), Ids(15)[2 * i..], Ids(2 * i), [], {}, 13)
  }

  function Migrated13(i: nat): Queues
    requires i <= 4
  {
    Queues([], [12], Same(12), [12, 13, 14], Ids(12)[3 * i..], Ids(3 * i), {}, 13)
  }

  lemma FillNext(i: nat)
    requires i < 13
    ensures Filled13(i).freeM != [] && AfterPut(Filled13(i)) == Filled13(i + 1)
  {
    assert Ids(13)[i..][1..] == Ids(13)[i + 1..] && Ids(i) + [i] == Ids(i + 1);
  }

  lemma {:induction false} FillEvery(s: State, i: nat)
    requires i <= 13 && Reaches(s, SMALL, [], Filled13(0))
    ensures Reaches(s, SMALL, ZeroPuts(i), Filled13(i))
  {
    hide Reaches, AfterPut, ZeroPut, Ids;
    if i == 0 {
      assert ZeroPuts(0) == [];
    } else {
      FillEvery(s, i - 1);
      FillNext(i - 1);
      ThenPut(s, SMALL, ZeroPuts(i - 1), Filled13(i - 1));
      assert ZeroPuts(i) == ZeroPuts(i - 1) + [ZeroPut(i - 1)];
    }
  }

  lemma FlushPair(i: nat)
    requires i < 6
    ensures Flushes(Flushed13(i), SMALL, [2 * i, 2 * i + 1], [2 * i, 2 * i + 1])
    ensures AfterFlush(Flushed13(i), [2 * i, 2 * i + 1], [2 * i, 2 * i + 1]) == Flushed13(i + 1)
  {
    var k, q, ms := 2 * i, Flushed13(i), [2 * i, 2 * i + 1];
    SortTwo(k, k + 1);
    hide Sort;
    assert q.fullM[..2] == ms && q.freeD[..2] + q.evictD[..0] == ms && ms[..2] == ms;
    assert q.fullM[2..] == Ids(13)[k + 2..] && q.freeD[2..] == Ids(15)[k + 2..] && q.usedD + ms == Ids(k + 2);
    assert q.evictM + Zip(ms, ms) == Same(k + 2);
  }

  lemma {:induction false} FlushEvery(s: State, i: nat)
    requires i <= 6 && Reaches(s, SMALL, ZeroPuts(13), Flushed13(0))
    ensures Reaches(s, SMALL, ZeroPuts(13) + Times(FlushOp, i), Flushed13(i))
  {
    hide Reaches, Flushes, AfterFlush;
    if i == 0 {
      assert ZeroPuts(13) + Times(FlushOp, 0) == ZeroPuts(13);
    } else {
      FlushEvery(s, i - 1);
      FlushPair(i - 1);
      ThenFlush(s, SMALL, ZeroPuts(13) + Times(FlushOp, i - 1), Flushed13(i - 1), [2 * i - 2, 2 * i - 1], [2 * i - 2, 2 * i - 1]);
      assert ZeroPuts(13) + Times(FlushOp, i) == ZeroPuts(13) + Times(FlushOp, i - 1) + [FlushOp];
    }
  }

  function Drained(): seq<Op> { ZeroPuts(13) + Times(FlushOp, 6) }

  lemma MigrateThree(i: nat)
    requires i < 4
    ensures SMALL.nbuf <= |Migrated13(i).usedD| && AfterMigrate(Migrated13(i), SMALL) == Migrated13(i + 1)
  {
    var k := 3 * i;
    assert Ids(12)[k..][3..] == Ids(12)[k + 3..] && Ids(k) + Ids(12)[k..][..3] == Ids(k + 3);
  }

  lemma {:induction false} MigrateEvery(s: State, i: nat)
    requires i <= 4 && Reaches(s, SMALL, Drained(), Migrated13(0))
    ensures Reaches(s, SMALL, Drained() + Times(MigrateOp, i), Migrated13(i))
  {
    hide Reaches, AfterMigrate, Drained;
    if i == 0 {
      assert Drained() + Times(MigrateOp, 0) == Drained();
    } else {
      MigrateEvery(s, i - 1);
      MigrateThree(i - 1);
      ThenMigrate(s, SMALL, Drained() + Times(MigrateOp, i - 1), Migrated13(i - 1));
      assert Drained() + Times(MigrateOp, i) == Drained() + Times(MigrateOp, i - 1) + [MigrateOp];
    }
  }

  lemma SameQueueStates()
    ensures Filled13(0) == Queues(Ids(13), [], [], Ids(15), [], [], {}, 0)
    ensures Filled13(13) == Flushed13(0) && Flushed13(6) == Migrated13(0)
    ensures Migrated13(4) == Queues([], [12], Same(12), [12, 13, 14], [], Ids(12), {}, 13)
  {
    assert Ids(13)[0..] == Ids(13) && Ids(13)[13..] == [] && Ids(0) == [] && Same(0) == [] && Ids(15)[0..] == Ids(15);
    assert Ids(13)[12..] == [12] && Ids(15)[12..] == [12, 13, 14] && Ids(12)[0..] == Ids(12) && Ids(12)[12..] == [];
  }

  // Thirteen puts, six flushes and four migrations: all disk slabs but three are evictable.
  function Worn(): seq<Op> { Drained() + Times(MigrateOp, 4) }

  lemma WornReached(mem: seq<seq<Item>>, disk: seq<seq<Item>>)
    requires |mem| == 13 && |disk| == 15 && Blank(SMALL, mem) && Blank(SMALL, disk)
    ensures Reaches(Init(mem, disk), SMALL, Worn(), Queues([], [12], Same(12), [12, 13, 14], [], Ids(12), {}, 13))
  {
    hide Reaches, Init, Filled13, Flushed13, Migrated13, ZeroPuts, Times;
    SameQueueStates();
    var s := Init(mem, disk);
    Starts(SMALL, mem, disk, Filled13(0));
    FillEvery(s, 13);
    FlushEvery(s, 6);
    MigrateEvery(s, 4);
  }

  // Two more puts, into the slabs 0 and 1 again, and a flush.
  function StrandingOps(): seq<Op> { Worn() + [ZeroPut(13)] + [ZeroPut(14)] + [FlushOp] }

  function StrandedQueues(): Queues { Queues([], [1], Same(12)[2..] + [(0, 12)], [14], [12], Ids(12), {12}, 15) }

  lemma StrandingFlush(q: Queues)
    requires q == Queues([], [12, 0, 1], Same(12)[2..], [12, 13, 14], [], Ids(12), {}, 15)
    ensures Flushes(q, SMALL, [0, 12], [12, 13]) && AfterFlush(q, [0, 12], [12, 13]) == StrandedQueues()
  {
    SortTwo(0, 12);
    SortTwo(12, 13);
    hide Sort, Same, Ids;
    assert q.fullM[..2] == [12, 0] && q.freeD[..2] + q.evictD[..0] == [12, 13] && q.evictD[0..] == q.evictD;
    assert Zip([0], [12]) == [(0, 12)];
    assert [0, 12][..1] == [0] && [12, 13][..1] == [12];
  }

  lemma TwoPuts(s: State, cfg: Config, ops: seq<Op>, q: Queues)
    requires Reaches(s, cfg, ops, q) && q.freeM == [] && |q.evictM| >= 2
    ensures Reaches(s, cfg, ops + [ZeroPut(q.time)] + [ZeroPut(q.time + 1)],
                    q.(fullM := q.fullM + [q.evictM[0].0] + [q.evictM[1].0], evictM := q.evictM[2..], time := q.time + 2))
  {
    hide Reaches, ZeroPut;
    ThenPut(s, cfg, ops, q);
    ThenPut(s, cfg, ops + [ZeroPut(q.time)], AfterPut(q));
    assert q.evictM[1..][1..] == q.evictM[2..];
  }

  lemma PairsInLine()
    ensures |Same(12)| == 12 && Same(12)[0].0 == 0 && Same(12)[1].0 == 1
    ensures var e := Same(12)[2..] + [(0, 12)]; |e| == 11 && e[0].0 == 2 && e[1].0 == 3 && e[2..] == Same(12)[4..] + [(0, 12)]
  {
  }

  lemma StrandingReached(mem: seq<seq<Item>>, disk: seq<seq<Item>>)
    requires |mem| == 13 && |disk| == 15 && Blank(SMALL, mem) && Blank(SMALL, disk)
    ensures Reaches(Init(mem, disk), SMALL, StrandingOps(), StrandedQueues())
  {
    hide Reaches, Init, Worn, ZeroPut, Same, Ids, Flushes, AfterFlush, StrandedQueues, Blank;
    PairsInLine();
    var s := Init(mem, disk);
    var q := Queues([], [12], Same(12), [12, 13, 14], [], Ids(12), {}, 13);
    WornReached(mem, disk);
    TwoPuts(s, SMALL, Worn(), q);
    var q' := Queues([], [12, 0, 1], Same(12)[2..], [12, 13, 14], [], Ids(12), {}, 15);
    assert [12] + [0] + [1] == [12, 0, 1];
    StrandingFlush(q');
    ThenFlush(s, SMALL, Worn() + [ZeroPut(13)] + [ZeroPut(14)], q', [0, 12], [12, 13]);
  }

  // A run of a store as the constructor makes it, every call of it one that the program makes, that
  // leaves memory slab 12 outside every queue.
  lemma StrandingRun(mem: seq<seq<Item>>, disk: seq<seq<Item>>)
    requires |mem| == 13 && |disk| == 15 && Blank(SMALL, mem) && Blank(SMALL, disk)
    ensures Constructed(SMALL, mem, disk) && Good(Init(mem, disk), SMALL) && Driven(Init(mem, disk), SMALL, StrandingOps())
    ensures Exec(Init(mem, disk), SMALL, StrandingOps()).looseM == {12}
  {
    hide Init, Exec, Good, Driven, Reaches, StrandingOps;
    StrandingReached(mem, disk);
    ReachesAt(Init(mem, disk), SMALL, StrandingOps(), StrandedQueues());
  }

  // The run goes on: two more puts, into the slabs 2 and 3, and a flush onto the last free disk slab
  // and the first evictable one.
  function CrossingOps(): seq<Op> { StrandingOps() + [ZeroPut(15)] + [ZeroPut(16)] + [FlushOp] }

  function CrossedQueues(): Queues
  {
    Queues([], [3], Same(12)[4..] + [(0, 12)] + [(1, 0), (2, 14)], [], [12, 0, 14], Ids(12)[1..], {12}, 17)
  }

  lemma CrossingFlush(q: Queues)
    requires q == Queues([], [1, 2, 3], Same(12)[4..] + [(0, 12)], [14], [12], Ids(12), {12}, 17)
    ensures Flushes(q, SMALL, [1, 2], [0, 14]) && AfterFlush(q, [1, 2], [0, 14]) == CrossedQueues()
  {
    assert Ids(12)[..1] == [0] && |Ids(12)| == 12;
    SortTwo(1, 2);
    SortTwo(0, 14);
    hide Sort, Same, Ids;
    assert q.fullM[..2] == [1, 2] && q.freeD[..1] + q.evictD[..1] == [14, 0];
    assert Zip([1, 2], [0, 14]) == [(1, 0), (2, 14)];
    assert [1, 2][..2] == [1, 2] && [0, 14][..2] == [0, 14];
  }

  lemma CrossingReached(mem: seq<seq<Item>>, disk: seq<seq<Item>>)
    requires |mem| == 13 && |disk| == 15 && Blank(SMALL, mem) && Blank(SMALL, disk)
    ensures Reaches(Init(mem, disk), SMALL, CrossingOps(), CrossedQueues())
  {
    hide Reaches, Init, StrandingOps, ZeroPut, Same, Ids, Flushes, AfterFlush, CrossedQueues, Blank;
    PairsInLine();
    var s := Init(mem, disk);
    StrandingReached(mem, disk);
    TwoPuts(s, SMALL, StrandingOps(), StrandedQueues());
    var q' := Queues([], [1, 2, 3], Same(12)[4..] + [(0, 12)], [14], [12], Ids(12), {12}, 17);
    assert [1] + [2] + [3] == [1, 2, 3];
    CrossingFlush(q');
    ThenFlush(s, SMALL, StrandingOps() + [ZeroPut(15)] + [ZeroPut(16)], q', [1, 2], [0, 14]);
  }

  lemma CrossingReads(disk: seq<seq<Item>>, slabs: seq<(nat, seq<Item>)>)
    requires |disk| == 15 && HandsOver(disk, [12, 0, 14], slabs)
    ensures |slabs| == 3 && slabs[1] == (0, disk[13])
  {
    assert ReadIds([12, 0, 14]) == [12, 13, 14];
  }

  // A migration can ask for one slab and read another, in a store as the constructor makes it and
  // after calls that the program makes: here slab 0 is handed over with the contents of slab 13,
  // which is in no queue.
  lemma SpanIsNotOrder(mem: seq<seq<Item>>, disk: seq<seq<Item>>, slabs: seq<(nat, seq<Item>)>)
    requires |mem| == 13 && |disk| == 15 && Blank(SMALL, mem) && Blank(SMALL, disk)
    ensures var s := Init(mem, disk);
            && Constructed(SMALL, mem, disk) && Good(s, SMALL) && Driven(s, SMALL, CrossingOps() + [MigrateOp])
            && var t := Exec(s, SMALL, CrossingOps());
               && MigrateStep(t, SMALL).1 == Some([12, 0, 14]) && 13 !in t.freeD + t.usedD + t.evictD && |t.disk| == 15
               && (HandsOver(t.disk, [12, 0, 14], slabs) ==> |slabs| == 3 && slabs[1] == (0, t.disk[13]))
  {
    hide Exec, Good, Driven, Reaches, HandsOver, MigrateStep, CrossingOps;
    var s, q := Init(mem, disk), CrossedQueues();
    assert |s.disk| == 15;
    hide Init;
    assert q.usedD[..3] == [12, 0, 14] && 13 !in q.freeD + q.usedD + q.evictD;
    CrossingReached(mem, disk);
    ReachesAt(s, SMALL, CrossingOps(), q);
    hide CrossedQueues;
    var t := Exec(s, SMALL, CrossingOps());
    SizesStay(s, SMALL, CrossingOps());
    Counts(t, SMALL, q);
    DrivenMore(s, SMALL, CrossingOps(), MigrateOp);
    MigrateAt(t, SMALL, q);
    if HandsOver(t.disk, [12, 0, 14], slabs) { CrossingReads(t.disk, slabs); }
  }
}
